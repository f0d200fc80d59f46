/** The per-word bisection of `refine` in integer mel frames: the search
    state, one accept/reject step, rounds over all words of a batch, and
    the timestamp a finished search proposes. The model's probabilities and
    token ranks are given as probes. */
module RefineSearch {
  import opened Common
  import opened RefineClamps

  /** Which timestamp a pass refines: 's' or 'e'. */
  datatype Edge = StartEdge | EndEdge

  /** The candidate interval `[lo, hi]` and the probe point `mid`, in frames
      relative to the batch's first start limit. */
  datatype Search = Search(lo: int, hi: int, mid: int)
  {
    function Width(): int { hi - lo }
  }

  /** The probe point sits at the rounded middle of the interval. */
  predicate Centered(s: Search)
  {
    s.mid == s.lo + HalfRound(s.hi - s.lo)
  }

  /** The `changes` row of a word: whether some probe failed, whether some
      probe passed, and the last probe point recorded, `-1` when none. */
  datatype Changes = Changes(rejected: bool, accepted: bool, lastMid: int)

  const NO_MID: int := -1
  const NO_CHANGES := Changes(false, false, NO_MID)

  /** Everything the loop keeps for one word. `baseline` is the word's
      entry of `orig_probs`, which the loop overwrites through its
      `new_probs` alias whenever the word keeps searching. */
  datatype WordSearch = WordSearch(search: Search, changes: Changes, finished: bool, baseline: real)

  datatype Thresholds = Thresholds(absDecrease: real, relDecrease: real, relRelDecrease: Option<real>, probThreshold: real)

  /** What one model call says about a word: the probability of its
      boundary token and that token's position in the sorted distribution. */
  datatype Probe = Probe(prob: real, rank: int)

  /** The requirements a probe must meet for the masked frames to count as
      silence: none of the five failure conditions holds. */
  predicate Fails(th: Thresholds, baseline: real, prev: real, origRank: int, p: Probe)
    requires baseline > 0.0 && prev > 0.0
  {
    || baseline - p.prob > th.absDecrease
    || (baseline - p.prob) / baseline > th.relDecrease
    || (th.relRelDecrease.Some? && (prev - p.prob) / prev > th.relRelDecrease.value)
    || p.prob < th.probThreshold
    || origRank > p.rank
  }

  /** One bisection step for one word. A failure keeps the probe point
      inside the word (the end search moves `lo` up, the start search moves
      `hi` down); a pass moves the opposite side. The word finishes once the
      rounded half-width drops below `framePrecision`; the narrowed interval
      is then not stored. */
  function StepWord(edge: Edge, w: WordSearch, th: Thresholds, prev: real, origRank: int, p: Probe, framePrecision: int): (r: WordSearch)
    requires w.baseline > 0.0 && prev > 0.0 && p.prob > 0.0
    ensures r.baseline > 0.0
    ensures w.finished ==> r == w
  {
    if w.finished then w
    else
      var failed := Fails(th, w.baseline, prev, origRank, p);
      var s := w.search;
      var changes := if failed then w.changes.(rejected := true) else w.changes.(accepted := true);
      var lo := if failed == (edge == EndEdge) then s.mid else s.lo;
      var hi := if failed == (edge == EndEdge) then s.hi else s.mid;
      var half := HalfRound(hi - lo);
      if half < framePrecision then
        w.(changes := changes, finished := true)
      else
        var mid := lo + half;
        var lastMid := if origRank > p.rank then changes.lastMid else mid;
        WordSearch(Search(lo, hi, mid), changes.(lastMid := lastMid), false, p.prob)
  }

  /** A failing probe marks the word rejected and, if the search goes on,
      keeps the side of the interval that still holds the word's sound; a
      passing probe marks it accepted and keeps the other side. A fallen
      token rank leaves the recorded probe point where it was. */
  lemma StepDirection(edge: Edge, w: WordSearch, th: Thresholds, prev: real, origRank: int, p: Probe, framePrecision: int)
    requires w.baseline > 0.0 && prev > 0.0 && p.prob > 0.0
    requires !w.finished
    ensures var r := StepWord(edge, w, th, prev, origRank, p, framePrecision);
      var failed := Fails(th, w.baseline, prev, origRank, p);
      && (failed ==> r.changes.rejected && r.changes.accepted == w.changes.accepted)
      && (!failed ==> r.changes.accepted && r.changes.rejected == w.changes.rejected)
      && (!r.finished && failed && edge == EndEdge ==> r.search.lo == w.search.mid && r.search.hi == w.search.hi)
      && (!r.finished && failed && edge == StartEdge ==> r.search.lo == w.search.lo && r.search.hi == w.search.mid)
      && (!r.finished && !failed && edge == EndEdge ==> r.search.lo == w.search.lo && r.search.hi == w.search.mid)
      && (!r.finished && !failed && edge == StartEdge ==> r.search.lo == w.search.mid && r.search.hi == w.search.hi)
      && (!r.finished && origRank <= p.rank ==> r.changes.lastMid == r.search.mid)
      && (origRank > p.rank || r.finished ==> r.changes.lastMid == w.changes.lastMid)
      && (r.finished ==> r.search == w.search && r.baseline == w.baseline)
      && (!r.finished ==> r.baseline == p.prob)
  {
  }

  /** From a centred interval, a step that does not finish the word keeps
      the interval centred, inside the old one, at least three frames wide,
      and at most half as wide (counting from one): the search terminates. */
  lemma StepNarrows(edge: Edge, w: WordSearch, th: Thresholds, prev: real, origRank: int, p: Probe, framePrecision: int)
    requires w.baseline > 0.0 && prev > 0.0 && p.prob > 0.0
    requires !w.finished && Centered(w.search) && framePrecision >= 2
    ensures var r := StepWord(edge, w, th, prev, origRank, p, framePrecision);
      !r.finished ==>
        && Centered(r.search)
        && w.search.lo <= r.search.lo <= r.search.mid <= r.search.hi <= w.search.hi
        && r.search.Width() >= 3
        && 2 * (r.search.Width() - 1) <= w.search.Width() - 1
  {
    var r := StepWord(edge, w, th, prev, origRank, p, framePrecision);
    var s := w.search;
    var h := HalfRound(s.hi - s.lo);
    if !r.finished {
      var w2 := r.search.Width();
      var h2 := HalfRound(w2);
      assert h2 >= framePrecision;
      assert w2 == h || w2 == s.Width() - h;
      assert 2 * w2 <= s.Width() + 1;
      assert w2 >= 3;
    }
  }

  /** The word's candidate range at the start of a pass. */
  function InitSearch(lo: int, hi: int): (r: Search)
    ensures Centered(r) && r.lo == lo && r.hi == hi
    ensures lo <= hi ==> lo <= r.mid <= hi
  {
    Search(lo, hi, lo + HalfRound(hi - lo))
  }

  /** Words the pass never searches: too unlikely, zero length, or (at
      segment level) not the segment's first word for starts or last word
      for ends. */
  predicate InitiallyFinished(edge: Edge, w: RWord, mask: int, wordLevel: bool, probThreshold: real)
  {
    || w.probability < probThreshold
    || w.Duration() == 0.0
    || (!wordLevel && mask != (if edge == EndEdge then 2 else 1))
  }

  function InitWord(edge: Edge, w: RWord, mask: int, wordLevel: bool, th: Thresholds, lo: int, hi: int, baseline: real): (r: WordSearch)
    ensures r.search == InitSearch(lo, hi) && r.changes == NO_CHANGES && r.baseline == baseline
    ensures r.finished <==> InitiallyFinished(edge, w, mask, wordLevel, th.probThreshold)
    ensures !r.finished ==>
      && w.probability >= th.probThreshold && w.Duration() != 0.0
      && (!wordLevel ==> mask == (if edge == EndEdge then 2 else 1))
    ensures wordLevel ==> (r.finished <==> w.probability < th.probThreshold || w.Duration() == 0.0)
  {
    WordSearch(InitSearch(lo, hi), NO_CHANGES, InitiallyFinished(edge, w, mask, wordLevel, th.probThreshold), baseline)
  }

  /** At segment level a start is refined only for a segment's first word
      and an end only for the last word of a segment of two or more: a
      one-word segment's end is never refined. */
  lemma SegmentLevelEdges(edge: Edge, w: RWord, segLen: nat, k: nat, th: Thresholds)
    requires k < segLen
    requires !InitiallyFinished(edge, w, SegMask(segLen, k), false, th.probThreshold)
    ensures edge == StartEdge ==> k == 0
    ensures edge == EndEdge ==> k == segLen - 1 && segLen >= 2
  {
  }

  /** The probabilities of one round, kept as `prev_probs` for the next. */
  function Probs(ps: seq<Probe>): (r: seq<real>)
    ensures |r| == |ps| && forall i :: 0 <= i < |ps| ==> r[i] == ps[i].prob
  {
    seq(|ps|, i requires 0 <= i < |ps| => ps[i].prob)
  }

  predicate PositiveProbes(ps: seq<Probe>)
  {
    forall i :: 0 <= i < |ps| ==> ps[i].prob > 0.0
  }

  predicate Positive(xs: seq<real>)
  {
    forall i :: 0 <= i < |xs| ==> xs[i] > 0.0
  }

  predicate PositiveBaselines(ws: seq<WordSearch>)
  {
    forall i :: 0 <= i < |ws| ==> ws[i].baseline > 0.0
  }

  /** A probe round for `n` words. */
  predicate ValidRounds(rounds: seq<seq<Probe>>, n: nat)
  {
    forall t :: 0 <= t < |rounds| ==> |rounds[t]| == n && PositiveProbes(rounds[t])
  }

  /** One pass of the `while` body over all words. */
  function Round(edge: Edge, ws: seq<WordSearch>, th: Thresholds, prev: seq<real>, origRanks: seq<int>, probes: seq<Probe>, framePrecision: int): (r: seq<WordSearch>)
    requires |prev| == |ws| && |origRanks| == |ws| && |probes| == |ws|
    requires PositiveBaselines(ws) && Positive(prev) && PositiveProbes(probes)
    ensures |r| == |ws| && PositiveBaselines(r)
    ensures forall i :: 0 <= i < |ws| ==> r[i] == StepWord(edge, ws[i], th, prev[i], origRanks[i], probes[i], framePrecision)
    ensures forall i :: 0 <= i < |ws| && ws[i].finished ==> r[i] == ws[i]
  {
    seq(|ws|, i requires 0 <= i < |ws| => StepWord(edge, ws[i], th, prev[i], origRanks[i], probes[i], framePrecision))
  }

  /** In a round, every word still searching from a centred interval moves
      to a centred interval inside its old one and at most half as wide
      (counting from one); a word that finishes was searching before. */
  lemma RoundNarrows(edge: Edge, ws: seq<WordSearch>, th: Thresholds, prev: seq<real>, origRanks: seq<int>, probes: seq<Probe>, framePrecision: int)
    requires |prev| == |ws| && |origRanks| == |ws| && |probes| == |ws|
    requires PositiveBaselines(ws) && Positive(prev) && PositiveProbes(probes)
    requires framePrecision >= 2
    ensures var r := Round(edge, ws, th, prev, origRanks, probes, framePrecision);
      forall i :: 0 <= i < |ws| && !r[i].finished && Centered(ws[i].search) ==>
        && !ws[i].finished
        && Centered(r[i].search)
        && ws[i].search.lo <= r[i].search.lo && r[i].search.hi <= ws[i].search.hi
        && 2 * (r[i].search.Width() - 1) <= ws[i].search.Width() - 1
  {
    var r := Round(edge, ws, th, prev, origRanks, probes, framePrecision);
    forall i | 0 <= i < |ws| && !r[i].finished && Centered(ws[i].search)
      ensures !ws[i].finished && Centered(r[i].search)
      ensures ws[i].search.lo <= r[i].search.lo && r[i].search.hi <= ws[i].search.hi
      ensures 2 * (r[i].search.Width() - 1) <= ws[i].search.Width() - 1
    {
      StepNarrows(edge, ws[i], th, prev[i], origRanks[i], probes[i], framePrecision);
    }
  }

  predicate AllFinished(ws: seq<WordSearch>)
  {
    forall i :: 0 <= i < |ws| ==> ws[i].finished
  }

  /** `while not np.all(is_finish)`, fed one probe round per iteration; the
      run also stops when the probes run out. */
  function Run(edge: Edge, ws: seq<WordSearch>, th: Thresholds, prev: seq<real>, origRanks: seq<int>, rounds: seq<seq<Probe>>, framePrecision: int): (r: seq<WordSearch>)
    requires |prev| == |ws| && |origRanks| == |ws| && ValidRounds(rounds, |ws|)
    requires PositiveBaselines(ws) && Positive(prev)
    ensures |r| == |ws| && PositiveBaselines(r)
    decreases |rounds|
  {
    if AllFinished(ws) || |rounds| == 0 then ws
    else
      var next := Round(edge, ws, th, prev, origRanks, rounds[0], framePrecision);
      Run(edge, next, th, Probs(rounds[0]), origRanks, rounds[1..], framePrecision)
  }

  /** A word that is finished stays exactly as it is. */
  lemma {:induction false} RunKeepsFinished(edge: Edge, ws: seq<WordSearch>, th: Thresholds, prev: seq<real>, origRanks: seq<int>, rounds: seq<seq<Probe>>, framePrecision: int, i: nat)
    requires |prev| == |ws| && |origRanks| == |ws| && ValidRounds(rounds, |ws|)
    requires PositiveBaselines(ws) && Positive(prev)
    requires i < |ws| && ws[i].finished
    ensures Run(edge, ws, th, prev, origRanks, rounds, framePrecision)[i] == ws[i]
    decreases |rounds|
  {
    if !(AllFinished(ws) || |rounds| == 0) {
      var next := Round(edge, ws, th, prev, origRanks, rounds[0], framePrecision);
      assert next[i] == ws[i];
      assert ValidRounds(rounds[1..], |next|) by {
        assert forall t :: 0 <= t < |rounds[1..]| ==> rounds[1..][t] == rounds[t + 1];
      }
      RunKeepsFinished(edge, next, th, Probs(rounds[0]), origRanks, rounds[1..], framePrecision, i);
    }
  }

  function Pow2(k: nat): (r: nat)
    ensures r >= 1
  {
    if k == 0 then 1 else 2 * Pow2(k - 1)
  }

  /** After `k` rounds a word still searching has halved its width `k`
      times, counting from one. */
  ghost predicate Shrunk(ws: seq<WordSearch>, k: nat, bound: int)
  {
    forall i :: 0 <= i < |ws| ==>
      || ws[i].finished
      || (Centered(ws[i].search) && Pow2(k) * (ws[i].search.Width() - 1) <= bound - 1 && (k >= 1 ==> ws[i].search.Width() >= 3))
  }

  lemma MulMono(a: nat, b: int, c: int)
    requires b <= c
    ensures a * b <= a * c
  {
  }

  lemma {:induction false} RoundShrinks(edge: Edge, ws: seq<WordSearch>, th: Thresholds, prev: seq<real>, origRanks: seq<int>, probes: seq<Probe>, framePrecision: int, k: nat, bound: int)
    requires |prev| == |ws| && |origRanks| == |ws| && |probes| == |ws|
    requires PositiveBaselines(ws) && Positive(prev) && PositiveProbes(probes)
    requires framePrecision >= 2 && Shrunk(ws, k, bound)
    ensures Shrunk(Round(edge, ws, th, prev, origRanks, probes, framePrecision), k + 1, bound)
  {
    var next := Round(edge, ws, th, prev, origRanks, probes, framePrecision);
    forall i | 0 <= i < |ws| && !next[i].finished
      ensures Centered(next[i].search) && Pow2(k + 1) * (next[i].search.Width() - 1) <= bound - 1 && next[i].search.Width() >= 3
    {
      assert next[i] == StepWord(edge, ws[i], th, prev[i], origRanks[i], probes[i], framePrecision);
      assert !ws[i].finished;
      StepShrinks(edge, ws[i], th, prev[i], origRanks[i], probes[i], framePrecision, k, bound);
    }
  }

  /** One word's share of RoundShrinks. */
  lemma StepShrinks(edge: Edge, w: WordSearch, th: Thresholds, prev: real, origRank: int, p: Probe, framePrecision: int, k: nat, bound: int)
    requires w.baseline > 0.0 && prev > 0.0 && p.prob > 0.0 && framePrecision >= 2 && !w.finished
    requires Centered(w.search) && Pow2(k) * (w.search.Width() - 1) <= bound - 1
    ensures var r := StepWord(edge, w, th, prev, origRank, p, framePrecision);
      !r.finished ==> Centered(r.search) && Pow2(k + 1) * (r.search.Width() - 1) <= bound - 1 && r.search.Width() >= 3
  {
    var r := StepWord(edge, w, th, prev, origRank, p, framePrecision);
    if !r.finished {
      StepNarrows(edge, w, th, prev, origRank, p, framePrecision);
      HalvedWidth(k, w.search.Width(), r.search.Width(), bound);
    }
  }

  /** Halving a width keeps the doubled bound. */
  lemma HalvedWidth(k: nat, w0: int, w1: int, bound: int)
    requires 2 * (w1 - 1) <= w0 - 1 && Pow2(k) * (w0 - 1) <= bound - 1
    ensures Pow2(k + 1) * (w1 - 1) <= bound - 1
  {
    MulMono(Pow2(k), 2 * (w1 - 1), w0 - 1);
    assert Pow2(k + 1) * (w1 - 1) == Pow2(k) * (2 * (w1 - 1));
  }

  lemma {:induction false} RunFinishesFrom(edge: Edge, ws: seq<WordSearch>, th: Thresholds, prev: seq<real>, origRanks: seq<int>, rounds: seq<seq<Probe>>, framePrecision: int, k: nat, bound: int)
    requires |prev| == |ws| && |origRanks| == |ws| && ValidRounds(rounds, |ws|)
    requires PositiveBaselines(ws) && Positive(prev)
    requires framePrecision >= 2 && Shrunk(ws, k, bound)
    requires k + |rounds| >= 1 && 2 * Pow2(k + |rounds|) >= bound
    ensures AllFinished(Run(edge, ws, th, prev, origRanks, rounds, framePrecision))
    decreases |rounds|
  {
    if AllFinished(ws) {
    } else if |rounds| == 0 {
      forall i | 0 <= i < |ws|
        ensures ws[i].finished
      {
        if !ws[i].finished {
          MulMono(Pow2(k), 2, ws[i].search.Width() - 1);
          assert false;
        }
      }
    } else {
      var next := Round(edge, ws, th, prev, origRanks, rounds[0], framePrecision);
      RoundShrinks(edge, ws, th, prev, origRanks, rounds[0], framePrecision, k, bound);
      assert ValidRounds(rounds[1..], |next|) by {
        assert forall t :: 0 <= t < |rounds[1..]| ==> rounds[1..][t] == rounds[t + 1];
      }
      RunFinishesFrom(edge, next, th, Probs(rounds[0]), origRanks, rounds[1..], framePrecision, k + 1, bound);
    }
  }

  /** Termination of the bisection loop: when every word still searching
      starts from a centred interval at most `bound` frames wide, one round
      plus about log2(bound) further rounds finish every word. */
  lemma RunTerminates(edge: Edge, ws: seq<WordSearch>, th: Thresholds, prev: seq<real>, origRanks: seq<int>, rounds: seq<seq<Probe>>, framePrecision: int, bound: int)
    requires |prev| == |ws| && |origRanks| == |ws| && ValidRounds(rounds, |ws|)
    requires PositiveBaselines(ws) && Positive(prev)
    requires framePrecision >= 2
    requires forall i :: 0 <= i < |ws| ==> ws[i].finished || (Centered(ws[i].search) && ws[i].search.Width() <= bound)
    requires |rounds| >= 1 && 2 * Pow2(|rounds|) >= bound
    ensures AllFinished(Run(edge, ws, th, prev, origRanks, rounds, framePrecision))
  {
    RunFinishesFrom(edge, ws, th, prev, origRanks, rounds, framePrecision, 0, bound);
  }

  /** The probe point a word records always lies in its starting range. */
  ghost predicate WithinStart(w: WordSearch, lo0: int, hi0: int)
  {
    && Centered(w.search)
    && lo0 <= w.search.lo && w.search.hi <= hi0
    && (w.changes.lastMid == NO_MID || lo0 <= w.changes.lastMid <= hi0)
  }

  lemma StepWithinStart(edge: Edge, w: WordSearch, th: Thresholds, prev: real, origRank: int, p: Probe, framePrecision: int, lo0: int, hi0: int)
    requires w.baseline > 0.0 && prev > 0.0 && p.prob > 0.0 && framePrecision >= 2
    requires WithinStart(w, lo0, hi0)
    ensures WithinStart(StepWord(edge, w, th, prev, origRank, p, framePrecision), lo0, hi0)
  {
    if !w.finished {
      StepNarrows(edge, w, th, prev, origRank, p, framePrecision);
    }
  }

  lemma {:induction false} RunWithinStart(edge: Edge, ws: seq<WordSearch>, th: Thresholds, prev: seq<real>, origRanks: seq<int>, rounds: seq<seq<Probe>>, framePrecision: int, los: seq<int>, his: seq<int>)
    requires |prev| == |ws| && |origRanks| == |ws| && ValidRounds(rounds, |ws|)
    requires PositiveBaselines(ws) && Positive(prev) && framePrecision >= 2
    requires |los| == |ws| && |his| == |ws|
    requires forall i :: 0 <= i < |ws| ==> WithinStart(ws[i], los[i], his[i])
    ensures var r := Run(edge, ws, th, prev, origRanks, rounds, framePrecision);
      forall i :: 0 <= i < |ws| ==> WithinStart(r[i], los[i], his[i])
    decreases |rounds|
  {
    if !(AllFinished(ws) || |rounds| == 0) {
      var next := Round(edge, ws, th, prev, origRanks, rounds[0], framePrecision);
      forall i | 0 <= i < |ws|
        ensures WithinStart(next[i], los[i], his[i])
      {
        StepWithinStart(edge, ws[i], th, prev[i], origRanks[i], rounds[0][i], framePrecision, los[i], his[i]);
      }
      assert ValidRounds(rounds[1..], |next|) by {
        assert forall t :: 0 <= t < |rounds[1..]| ==> rounds[1..][t] == rounds[t + 1];
      }
      RunWithinStart(edge, next, th, Probs(rounds[0]), origRanks, rounds[1..], framePrecision, los, his);
    }
  }

  /** `update_ts` without its output: the timestamp a finished search
      proposes, `round(time_offset + mid / 100, 3)`, or nothing. Nothing is
      proposed without a recorded probe point, nor when every probe failed
      and the proposal would not widen the word. */
  function ProposedTs(edge: Edge, offset: real, ch: Changes, w: RWord): (r: Option<real>)
    ensures ch.lastMid == NO_MID ==> r.None?
    ensures r.Some? ==> -0.0005 <= offset + ch.lastMid as real / FRAMES_PER_SECOND as real - r.value <= 0.0005
    ensures r.Some? && ch.rejected && !ch.accepted ==>
      (edge == EndEdge ==> r.value > w.end) && (edge == StartEdge ==> r.value < w.start)
    ensures ch.lastMid != NO_MID && (ch.accepted || !ch.rejected) ==> r.Some?
    ensures var ts := RoundTo3(offset + ch.lastMid as real / FRAMES_PER_SECOND as real);
      && (r.Some? <==> ch.lastMid != NO_MID && (ch.accepted || !ch.rejected || (if edge == EndEdge then ts > w.end else ts < w.start)))
      && (r.Some? ==> r.value == ts)
  {
    if ch.lastMid == NO_MID then None
    else
      var ts := RoundTo3(offset + ch.lastMid as real / FRAMES_PER_SECOND as real);
      if ch.rejected && !ch.accepted && (if edge == EndEdge then ts <= w.end else ts >= w.start) then None
      else Some(ts)
  }

  /** `update_ts`: the proposal is written only when `verbose` is truthy;
      only the edge being refined changes. */
  function UpdateTs(edge: Edge, offset: real, ch: Changes, w: RWord, verbose: bool): (r: RWord)
    ensures !verbose || ProposedTs(edge, offset, ch, w).None? ==> r == w
    ensures r.text == w.text && r.probability == w.probability
    ensures edge == StartEdge ==> r.end == w.end
    ensures edge == EndEdge ==> r.start == w.start
    ensures verbose && ProposedTs(edge, offset, ch, w).Some? ==>
      (if edge == EndEdge then r.end else r.start) == ProposedTs(edge, offset, ch, w).value
  {
    match ProposedTs(edge, offset, ch, w)
    case None => w
    case Some(ts) =>
      if !verbose then w
      else if edge == EndEdge then w.(end := ts) else w.(start := ts)
  }

  /** A proposal comes from a probe point inside the starting range, so it
      lies within that range converted back to seconds, up to rounding. */
  lemma ProposedWithinStart(edge: Edge, offset: real, w: WordSearch, word: RWord, lo0: int, hi0: int)
    requires WithinStart(w, lo0, hi0)
    requires ProposedTs(edge, offset, w.changes, word).Some?
    ensures var ts := ProposedTs(edge, offset, w.changes, word).value;
      offset + lo0 as real / 100.0 - 0.0005 <= ts <= offset + hi0 as real / 100.0 + 0.0005
  {
    var m := w.changes.lastMid;
    assert lo0 <= m <= hi0;
    assert lo0 as real / 100.0 <= m as real / 100.0 <= hi0 as real / 100.0;
  }
}

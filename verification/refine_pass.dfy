/** `refine` end to end: for each step letter, compute the limits, cut the
    words into batches, run the bisection of every batch against its probes
    and write back what `update_ts` decides. */
module RefinePass {
  import opened Common
  import opened AlignText
  import opened RefineConfig
  import opened RefineClamps
  import opened RefineSearch

  /** `ts_to_frames`: seconds to mel frames, rounded half to even. */
  function Frames(t: real): (r: int)
    ensures t * 100.0 - 0.5 <= r as real <= t * 100.0 + 0.5
  {
    RoundReal(t * FRAMES_PER_SECOND as real)
  }

  /** What the model says about one batch: the unmasked probes, then one
      probe round per iteration of the search loop. */
  datatype BatchProbes = BatchProbes(orig: seq<Probe>, rounds: seq<seq<Probe>>)

  predicate ValidBatchProbes(p: BatchProbes, n: nat)
  {
    |p.orig| == n && PositiveProbes(p.orig) && ValidRounds(p.rounds, n)
  }

  /** Softmax probabilities are positive, one per word of the batch. */
  ghost predicate ValidProber(prober: (Edge, seq<RWord>) -> BatchProbes)
  {
    forall e, ws :: ValidBatchProbes(prober(e, ws), |ws|)
  }

  datatype Settings = Settings(
    caps: DurCaps,
    th: Thresholds,
    wordLevel: bool,
    verbose: bool,
    maxWords: int,
    framePrecision: int,
    total: real)

  /** The starting range of word `i` of batch `b`, in frames from the
      batch's first start limit: from the start limit to the word's end for
      starts, from the word's start to the end limit for ends. */
  function StartRange(edge: Edge, words: seq<RWord>, starts: seq<real>, ends: seq<real>, b: Batch, i: nat): (r: (int, int))
    requires |starts| == |words| && |ends| == |words| && b.lo <= i < |words|
  {
    var offset := starts[b.lo];
    if edge == StartEdge then (Frames(starts[i] - offset), Frames(words[i].end - offset))
    else (Frames(words[i].start - offset), Frames(ends[i] - offset))
  }

  function InitBatch(edge: Edge, words: seq<RWord>, starts: seq<real>, ends: seq<real>, mask: seq<int>, b: Batch, s: Settings, orig: seq<Probe>): (r: seq<WordSearch>)
    requires |starts| == |words| && |ends| == |words| && |mask| == |words|
    requires b.lo < b.hi <= |words| && |orig| == b.hi - b.lo && PositiveProbes(orig)
    ensures |r| == b.hi - b.lo && PositiveBaselines(r)
    ensures forall k :: 0 <= k < |r| ==> r[k].changes == NO_CHANGES
    ensures forall k :: 0 <= k < |r| ==>
      var rng := StartRange(edge, words, starts, ends, b, b.lo + k);
      r[k].search == InitSearch(rng.0, rng.1)
    ensures forall k :: 0 <= k < |r| ==>
      (r[k].finished <==> InitiallyFinished(edge, words[b.lo + k], mask[b.lo + k], s.wordLevel, s.th.probThreshold))
  {
    seq(b.hi - b.lo, k requires 0 <= k < b.hi - b.lo => InitAt(edge, words, starts, ends, mask, b, s, orig[k], b.lo + k))
  }

  /** The fresh search of word `i`, with its batch's baseline probability. */
  function InitAt(edge: Edge, words: seq<RWord>, starts: seq<real>, ends: seq<real>, mask: seq<int>, b: Batch, s: Settings, orig: Probe, i: nat): (r: WordSearch)
    requires |starts| == |words| && |ends| == |words| && |mask| == |words| && b.lo <= i < |words|
    ensures r.baseline == orig.prob && r.changes == NO_CHANGES
    ensures var rng := StartRange(edge, words, starts, ends, b, i); r.search == InitSearch(rng.0, rng.1)
    ensures r.finished <==> InitiallyFinished(edge, words[i], mask[i], s.wordLevel, s.th.probThreshold)
  {
    var rng := StartRange(edge, words, starts, ends, b, i);
    InitWord(edge, words[i], mask[i], s.wordLevel, s.th, rng.0, rng.1, orig.prob)
  }

  function Ranks(ps: seq<Probe>): (r: seq<int>)
    ensures |r| == |ps| && forall i :: 0 <= i < |ps| ==> r[i] == ps[i].rank
  {
    seq(|ps|, i requires 0 <= i < |ps| => ps[i].rank)
  }

  /** Same texts and probabilities; only the refined edge may differ. */
  ghost predicate SameButEdge(edge: Edge, a: seq<RWord>, b: seq<RWord>)
  {
    && |a| == |b|
    && (forall i :: 0 <= i < |a| ==> a[i].text == b[i].text && a[i].probability == b[i].probability)
    && (forall i :: 0 <= i < |a| ==> (edge == StartEdge ==> a[i].end == b[i].end) && (edge == EndEdge ==> a[i].start == b[i].start))
  }

  /** `update_ts` for every word whose search finished. */
  function WriteBack(edge: Edge, offset: real, fin: seq<WordSearch>, ws: seq<RWord>, verbose: bool): (r: seq<RWord>)
    requires |fin| == |ws|
    ensures SameButEdge(edge, ws, r)
    ensures !verbose ==> r == ws
  {
    var r := seq(|ws|, k requires 0 <= k < |ws| => if fin[k].finished then UpdateTs(edge, offset, fin[k].changes, ws[k], verbose) else ws[k]);
    assert !verbose ==> forall k :: 0 <= k < |ws| ==> r[k] == ws[k];
    r
  }

  lemma WriteBackAt(edge: Edge, offset: real, fin: seq<WordSearch>, ws: seq<RWord>, verbose: bool, k: nat)
    requires |fin| == |ws| && k < |ws|
    ensures WriteBack(edge, offset, fin, ws, verbose)[k] ==
      if fin[k].finished then UpdateTs(edge, offset, fin[k].changes, ws[k], verbose) else ws[k]
  {
  }

  /** The bisection of one batch: every word's search once the probe
      rounds are used up. */
  function BatchSearch(edge: Edge, words: seq<RWord>, starts: seq<real>, ends: seq<real>, mask: seq<int>, b: Batch, s: Settings, probes: BatchProbes): (r: seq<WordSearch>)
    requires |starts| == |words| && |ends| == |words| && |mask| == |words|
    requires b.lo < b.hi <= |words| && ValidBatchProbes(probes, b.hi - b.lo)
    ensures |r| == b.hi - b.lo
  {
    var init := InitBatch(edge, words, starts, ends, mask, b, s, probes.orig);
    Run(edge, init, s.th, Probs(probes.orig), Ranks(probes.orig), probes.rounds, s.framePrecision)
  }

  /** The bisection of one batch and the resulting words of the batch. */
  function RefineBatch(edge: Edge, words: seq<RWord>, starts: seq<real>, ends: seq<real>, mask: seq<int>, b: Batch, s: Settings, probes: BatchProbes): (r: seq<RWord>)
    requires |starts| == |words| && |ends| == |words| && |mask| == |words|
    requires b.lo < b.hi <= |words| && ValidBatchProbes(probes, b.hi - b.lo)
    ensures SameButEdge(edge, words[b.lo..b.hi], r)
    ensures !s.verbose ==> r == words[b.lo..b.hi]
  {
    WriteBack(edge, starts[b.lo], BatchSearch(edge, words, starts, ends, mask, b, s, probes), words[b.lo..b.hi], s.verbose)
  }

  /** Word `k` of a refined batch: rewritten by `update_ts` when its search
      finished, unchanged otherwise. */
  lemma RefineBatchAt(edge: Edge, words: seq<RWord>, starts: seq<real>, ends: seq<real>, mask: seq<int>, b: Batch, s: Settings, probes: BatchProbes, k: nat)
    requires |starts| == |words| && |ends| == |words| && |mask| == |words|
    requires b.lo < b.hi <= |words| && ValidBatchProbes(probes, b.hi - b.lo)
    requires k < b.hi - b.lo
    ensures var fin := BatchSearch(edge, words, starts, ends, mask, b, s, probes);
      RefineBatch(edge, words, starts, ends, mask, b, s, probes)[k] ==
        if fin[k].finished then UpdateTs(edge, starts[b.lo], fin[k].changes, words[b.lo + k], s.verbose) else words[b.lo + k]
  {
    WriteBackAt(edge, starts[b.lo], BatchSearch(edge, words, starts, ends, mask, b, s, probes), words[b.lo..b.hi], s.verbose, k);
  }

  /** Words the pass never searches come out of their batch unchanged. */
  lemma RefineBatchKeepsSkipped(edge: Edge, words: seq<RWord>, starts: seq<real>, ends: seq<real>, mask: seq<int>, b: Batch, s: Settings, probes: BatchProbes, k: nat)
    requires |starts| == |words| && |ends| == |words| && |mask| == |words|
    requires b.lo < b.hi <= |words| && ValidBatchProbes(probes, b.hi - b.lo)
    requires k < b.hi - b.lo
    requires InitiallyFinished(edge, words[b.lo + k], mask[b.lo + k], s.wordLevel, s.th.probThreshold)
    ensures RefineBatch(edge, words, starts, ends, mask, b, s, probes)[k] == words[b.lo + k]
  {
    var init := InitBatch(edge, words, starts, ends, mask, b, s, probes.orig);
    RunKeepsFinished(edge, init, s.th, Probs(probes.orig), Ranks(probes.orig), probes.rounds, s.framePrecision, k);
    var fin := BatchSearch(edge, words, starts, ends, mask, b, s, probes);
    assert fin == Run(edge, init, s.th, Probs(probes.orig), Ranks(probes.orig), probes.rounds, s.framePrecision);
    assert fin[k].changes == NO_CHANGES;
    RefineBatchAt(edge, words, starts, ends, mask, b, s, probes, k);
  }

  /** A refined timestamp stays inside the word's starting range, up to the
      rounding to frames and to milliseconds: a start between its start
      limit and the word's end, an end between the word's start and its end
      limit. */
  lemma RefineBatchWithinLimits(edge: Edge, words: seq<RWord>, starts: seq<real>, ends: seq<real>, mask: seq<int>, b: Batch, s: Settings, probes: BatchProbes, k: nat)
    requires |starts| == |words| && |ends| == |words| && |mask| == |words|
    requires b.lo < b.hi <= |words| && ValidBatchProbes(probes, b.hi - b.lo)
    requires k < b.hi - b.lo && s.framePrecision >= 2
    ensures var r := RefineBatch(edge, words, starts, ends, mask, b, s, probes)[k];
      var w := words[b.lo + k];
      && (edge == StartEdge && r.start != w.start ==> starts[b.lo + k] - 0.0055 <= r.start <= w.end + 0.0055)
      && (edge == EndEdge && r.end != w.end ==> w.start - 0.0055 <= r.end <= ends[b.lo + k] + 0.0055)
  {
    var fin := BatchSearch(edge, words, starts, ends, mask, b, s, probes);
    RefineBatchAt(edge, words, starts, ends, mask, b, s, probes, k);
    if fin[k].finished {
      BatchSearchWithinStart(edge, words, starts, ends, mask, b, s, probes, k);
      UpdateWithinLimits(edge, words, starts, ends, b, b.lo + k, fin[k], s.verbose);
    }
  }

  /** `update_ts` from a search that stayed in word `i`'s starting range
      keeps the word within its limits. */
  lemma UpdateWithinLimits(edge: Edge, words: seq<RWord>, starts: seq<real>, ends: seq<real>, b: Batch, i: nat, f: WordSearch, verbose: bool)
    requires |starts| == |words| && |ends| == |words| && b.lo <= i < |words|
    requires var rng := StartRange(edge, words, starts, ends, b, i); WithinStart(f, rng.0, rng.1)
    ensures var r := UpdateTs(edge, starts[b.lo], f.changes, words[i], verbose);
      var w := words[i];
      && (edge == StartEdge && r.start != w.start ==> starts[i] - 0.0055 <= r.start <= w.end + 0.0055)
      && (edge == EndEdge && r.end != w.end ==> w.start - 0.0055 <= r.end <= ends[i] + 0.0055)
  {
    var offset := starts[b.lo];
    var p := ProposedTs(edge, offset, f.changes, words[i]);
    if verbose && p.Some? {
      var rng := StartRange(edge, words, starts, ends, b, i);
      ProposedWithinStart(edge, offset, f, words[i], rng.0, rng.1);
      ProposalInSeconds(edge, words, starts, ends, b, i, offset, p.value, rng.0, rng.1);
    }
  }

  /** Every probe point a batch's search records lies in the word's
      starting range. */
  lemma BatchSearchWithinStart(edge: Edge, words: seq<RWord>, starts: seq<real>, ends: seq<real>, mask: seq<int>, b: Batch, s: Settings, probes: BatchProbes, k: nat)
    requires |starts| == |words| && |ends| == |words| && |mask| == |words|
    requires b.lo < b.hi <= |words| && ValidBatchProbes(probes, b.hi - b.lo)
    requires k < b.hi - b.lo && s.framePrecision >= 2
    ensures var rng := StartRange(edge, words, starts, ends, b, b.lo + k);
      WithinStart(BatchSearch(edge, words, starts, ends, mask, b, s, probes)[k], rng.0, rng.1)
  {
    var r := BatchSearch(edge, words, starts, ends, mask, b, s, probes);
    var los, his := StartLos(edge, words, starts, ends, b), StartHis(edge, words, starts, ends, b);
    var rng := StartRange(edge, words, starts, ends, b, b.lo + k);
    BatchSearchWithinStarts(edge, words, starts, ends, mask, b, s, probes);
    assert los[k] == rng.0 && his[k] == rng.1;
    assert WithinStart(r[k], los[k], his[k]);
  }

  lemma BatchSearchWithinStarts(edge: Edge, words: seq<RWord>, starts: seq<real>, ends: seq<real>, mask: seq<int>, b: Batch, s: Settings, probes: BatchProbes)
    requires |starts| == |words| && |ends| == |words| && |mask| == |words|
    requires b.lo < b.hi <= |words| && ValidBatchProbes(probes, b.hi - b.lo)
    requires s.framePrecision >= 2
    ensures var r := BatchSearch(edge, words, starts, ends, mask, b, s, probes);
      var los, his := StartLos(edge, words, starts, ends, b), StartHis(edge, words, starts, ends, b);
      forall j :: 0 <= j < |r| ==> WithinStart(r[j], los[j], his[j])
  {
    var init := InitBatch(edge, words, starts, ends, mask, b, s, probes.orig);
    var los, his := StartLos(edge, words, starts, ends, b), StartHis(edge, words, starts, ends, b);
    InitBatchWithinStart(edge, words, starts, ends, mask, b, s, probes.orig);
    RunWithinStart(edge, init, s.th, Probs(probes.orig), Ranks(probes.orig), probes.rounds, s.framePrecision, los, his);
  }

  /** The starting ranges of a batch's words, lower and upper ends. */
  function StartLos(edge: Edge, words: seq<RWord>, starts: seq<real>, ends: seq<real>, b: Batch): (r: seq<int>)
    requires |starts| == |words| && |ends| == |words| && b.lo <= b.hi <= |words|
    ensures |r| == b.hi - b.lo
    ensures forall j :: 0 <= j < |r| ==> r[j] == StartRange(edge, words, starts, ends, b, b.lo + j).0
  {
    seq(b.hi - b.lo, j requires 0 <= j < b.hi - b.lo => StartRange(edge, words, starts, ends, b, b.lo + j).0)
  }

  function StartHis(edge: Edge, words: seq<RWord>, starts: seq<real>, ends: seq<real>, b: Batch): (r: seq<int>)
    requires |starts| == |words| && |ends| == |words| && b.lo <= b.hi <= |words|
    ensures |r| == b.hi - b.lo
    ensures forall j :: 0 <= j < |r| ==> r[j] == StartRange(edge, words, starts, ends, b, b.lo + j).1
  {
    seq(b.hi - b.lo, j requires 0 <= j < b.hi - b.lo => StartRange(edge, words, starts, ends, b, b.lo + j).1)
  }

  /** A fresh batch starts every word inside its own starting range. */
  lemma InitBatchWithinStart(edge: Edge, words: seq<RWord>, starts: seq<real>, ends: seq<real>, mask: seq<int>, b: Batch, s: Settings, orig: seq<Probe>)
    requires |starts| == |words| && |ends| == |words| && |mask| == |words|
    requires b.lo < b.hi <= |words| && |orig| == b.hi - b.lo && PositiveProbes(orig)
    ensures var init := InitBatch(edge, words, starts, ends, mask, b, s, orig);
      var los, his := StartLos(edge, words, starts, ends, b), StartHis(edge, words, starts, ends, b);
      forall j :: 0 <= j < |init| ==> WithinStart(init[j], los[j], his[j])
  {
    var init := InitBatch(edge, words, starts, ends, mask, b, s, orig);
    var los, his := StartLos(edge, words, starts, ends, b), StartHis(edge, words, starts, ends, b);
    forall j | 0 <= j < |init|
      ensures WithinStart(init[j], los[j], his[j])
    {
      var rng := StartRange(edge, words, starts, ends, b, b.lo + j);
      assert init[j].search == InitSearch(rng.0, rng.1) && init[j].changes == NO_CHANGES;
      assert los[j] == rng.0 && his[j] == rng.1;
    }
  }


  lemma ProposalInSeconds(edge: Edge, words: seq<RWord>, starts: seq<real>, ends: seq<real>, b: Batch, i: nat, offset: real, ts: real, lo0: int, hi0: int)
    requires |starts| == |words| && |ends| == |words| && b.lo <= i < |words|
    requires offset == starts[b.lo] && (lo0, hi0) == StartRange(edge, words, starts, ends, b, i)
    requires offset + lo0 as real / 100.0 - 0.0005 <= ts <= offset + hi0 as real / 100.0 + 0.0005
    ensures edge == StartEdge ==> starts[i] - 0.0055 <= ts <= words[i].end + 0.0055
    ensures edge == EndEdge ==> words[i].start - 0.0055 <= ts <= ends[i] + 0.0055
  {
    var a := if edge == StartEdge then starts[i] - offset else words[i].start - offset;
    var z := if edge == StartEdge then words[i].end - offset else ends[i] - offset;
    assert lo0 == Frames(a) && hi0 == Frames(z);
    assert a * 100.0 - 0.5 <= lo0 as real;
    assert lo0 as real / 100.0 >= a - 0.005;
    assert hi0 as real <= z * 100.0 + 0.5;
    assert hi0 as real / 100.0 <= z + 0.005;
  }

  /** Replaces the words of batch `b` by `repl`. */
  function Splice(words: seq<RWord>, b: Batch, repl: seq<RWord>): (r: seq<RWord>)
    requires b.lo <= b.hi <= |words| && |repl| == b.hi - b.lo
    ensures |r| == |words|
    ensures forall i :: 0 <= i < |words| ==> r[i] == if b.lo <= i < b.hi then repl[i - b.lo] else words[i]
  {
    words[..b.lo] + repl + words[b.hi..]
  }

  lemma SpliceSame(edge: Edge, words: seq<RWord>, b: Batch, repl: seq<RWord>)
    requires b.lo <= b.hi <= |words| && SameButEdge(edge, words[b.lo..b.hi], repl)
    ensures SameButEdge(edge, words, Splice(words, b, repl))
  {
    var r := Splice(words, b, repl);
    forall i | b.lo <= i < b.hi
      ensures r[i] == repl[i - b.lo] && words[i] == words[b.lo..b.hi][i - b.lo]
    {
    }
  }

  lemma SameButEdgeTrans(edge: Edge, a: seq<RWord>, b: seq<RWord>, c: seq<RWord>)
    requires SameButEdge(edge, a, b) && SameButEdge(edge, b, c)
    ensures SameButEdge(edge, a, c)
  {
  }

  /** The batches in order, each refined in place. */
  function ApplyBatches(edge: Edge, words: seq<RWord>, starts: seq<real>, ends: seq<real>, mask: seq<int>, bs: seq<Batch>, s: Settings,
                        prober: (Edge, seq<RWord>) -> BatchProbes): (r: seq<RWord>)
    requires ValidProber(prober)
    requires |starts| == |words| && |ends| == |words| && |mask| == |words|
    requires forall k :: 0 <= k < |bs| ==> bs[k].lo < bs[k].hi <= |words|
    ensures |r| == |words|
    decreases |bs|
  {
    if |bs| == 0 then words
    else
      ApplyBatches(edge, StepBatch(edge, words, starts, ends, mask, bs[0], s, prober), starts, ends, mask, bs[1..], s, prober)
  }

  /** One batch refined in place. */
  function StepBatch(edge: Edge, words: seq<RWord>, starts: seq<real>, ends: seq<real>, mask: seq<int>, b: Batch, s: Settings,
                     prober: (Edge, seq<RWord>) -> BatchProbes): (r: seq<RWord>)
    requires ValidProber(prober)
    requires |starts| == |words| && |ends| == |words| && |mask| == |words|
    requires b.lo < b.hi <= |words|
    ensures |r| == |words|
  {
    Splice(words, b, RefineBatch(edge, words, starts, ends, mask, b, s, prober(edge, words[b.lo..b.hi])))
  }

  /** Refining one batch and splicing it back changes only the edge being
      refined, and with `verbose` off changes nothing. */
  lemma BatchStepSame(edge: Edge, words: seq<RWord>, starts: seq<real>, ends: seq<real>, mask: seq<int>, b: Batch, s: Settings,
                      prober: (Edge, seq<RWord>) -> BatchProbes)
    requires ValidProber(prober)
    requires |starts| == |words| && |ends| == |words| && |mask| == |words|
    requires b.lo < b.hi <= |words|
    ensures var next := StepBatch(edge, words, starts, ends, mask, b, s, prober);
      SameButEdge(edge, words, next) && (!s.verbose ==> next == words)
  {
    var probes := prober(edge, words[b.lo..b.hi]);
    assert ValidBatchProbes(probes, b.hi - b.lo);
    var repl := RefineBatch(edge, words, starts, ends, mask, b, s, probes);
    assert StepBatch(edge, words, starts, ends, mask, b, s, prober) == Splice(words, b, repl);
    SpliceSame(edge, words, b, repl);
    if !s.verbose {
      SpliceSelf(words, b);
    }
  }

  lemma SpliceSelf(words: seq<RWord>, b: Batch)
    requires b.lo <= b.hi <= |words|
    ensures Splice(words, b, words[b.lo..b.hi]) == words
  {
    assert words[..b.lo] + words[b.lo..b.hi] + words[b.hi..] == words;
  }

  /** Refining the batches changes only the edge being refined, and with
      `verbose` off changes nothing. */
  lemma {:induction false} ApplyBatchesSame(edge: Edge, words: seq<RWord>, starts: seq<real>, ends: seq<real>, mask: seq<int>, bs: seq<Batch>, s: Settings,
                                            prober: (Edge, seq<RWord>) -> BatchProbes)
    requires ValidProber(prober)
    requires |starts| == |words| && |ends| == |words| && |mask| == |words|
    requires forall k :: 0 <= k < |bs| ==> bs[k].lo < bs[k].hi <= |words|
    ensures SameButEdge(edge, words, ApplyBatches(edge, words, starts, ends, mask, bs, s, prober))
    ensures !s.verbose ==> ApplyBatches(edge, words, starts, ends, mask, bs, s, prober) == words
    decreases |bs|
  {
    if |bs| > 0 {
      var b := bs[0];
      var next := StepBatch(edge, words, starts, ends, mask, b, s, prober);
      BatchStepSame(edge, words, starts, ends, mask, b, s, prober);
      var rest := bs[1..];
      assert ApplyBatches(edge, words, starts, ends, mask, bs, s, prober) == ApplyBatches(edge, next, starts, ends, mask, rest, s, prober);
      forall k | 0 <= k < |rest|
        ensures rest[k].lo < rest[k].hi <= |next|
      {
        assert rest[k] == bs[k + 1];
      }
      ApplyBatchesSame(edge, next, starts, ends, mask, rest, s, prober);
      SameButEdgeTrans(edge, words, next, ApplyBatches(edge, next, starts, ends, mask, rest, s, prober));
    }
  }

  /** One `_refine(step)` call. `None` is the failure on an empty word list. */
  function RefineStep(edge: Edge, words: seq<RWord>, segLens: seq<nat>, s: Settings, prober: (Edge, seq<RWord>) -> BatchProbes): (r: Option<seq<RWord>>)
    requires ValidProber(prober)
    requires RefineClamps.Sum(segLens) == |words|
    ensures r.None? <==> |words| == 0
    ensures r.Some? ==> SameButEdge(edge, words, r.value)
    ensures r.Some? && !s.verbose ==> r.value == words
  {
    var starts := seq(|words|, i requires 0 <= i < |words| => StartBound(words, i, s.caps));
    var ends := seq(|words|, i requires 0 <= i < |words| => EndBound(words, i, s.total, s.caps));
    match Batches(starts, ends, s.maxWords)
    case None => None
    case Some(bs) =>
      BatchesPartition(starts, ends, s.maxWords);
      ApplyBatchesSame(edge, words, starts, ends, EdgeMask(segLens), bs, s, prober);
      Some(ApplyBatches(edge, words, starts, ends, EdgeMask(segLens), bs, s, prober))
  }

  function EdgeOf(c: char): Edge
  {
    if c == 'e' then EndEdge else StartEdge
  }

  function RunSteps(words: seq<RWord>, segLens: seq<nat>, steps: string, s: Settings, prober: (Edge, seq<RWord>) -> BatchProbes): (r: Option<seq<RWord>>)
    requires ValidProber(prober)
    requires RefineClamps.Sum(segLens) == |words|
    ensures r.None? <==> |words| == 0 && |steps| > 0
    ensures r.Some? ==> |r.value| == |words|
    ensures r.Some? ==> forall i :: 0 <= i < |words| ==> r.value[i].text == words[i].text && r.value[i].probability == words[i].probability
    ensures r.Some? && !s.verbose ==> r.value == words
    decreases |steps|
  {
    if |steps| == 0 then Some(words)
    else
      match RefineStep(EdgeOf(steps[0]), words, segLens, s, prober)
      case None => None
      case Some(next) => RunSteps(next, segLens, steps[1..], s, prober)
  }

  /** `refine` on a flat word list cut into segments of `segLens` words,
      with `totalSamples` samples of audio and a decoder context of
      `textCtx` tokens. */
  function Refine(words: seq<RWord>, segLens: seq<nat>, hasWords: bool, steps: string, precision: Option<real>,
                  caps: DurCaps, th: Thresholds, wordLevel: bool, verbose: bool, textCtx: int, totalSamples: nat,
                  prober: (Edge, seq<RWord>) -> BatchProbes): (r: Result<seq<RWord>, RefineError>)
    requires ValidProber(prober)
    requires RefineClamps.Sum(segLens) == |words|
    ensures ValidateSteps(steps, hasWords).Err? ==> r == Err(ValidateSteps(steps, hasWords).error)
    ensures ValidateSteps(steps, hasWords).Ok? ==> (r.Err? <==> |words| == 0) && (r.Err? ==> r.error == EmptyWordList)
    ensures r.Ok? ==> |r.value| == |words|
    ensures r.Ok? ==> forall i :: 0 <= i < |words| ==> r.value[i].text == words[i].text && r.value[i].probability == words[i].probability
    ensures r.Ok? && !verbose ==> r.value == words
  {
    match ValidateSteps(steps, hasWords)
    case Err(e) => Err(e)
    case Ok(letters) =>
      var s := Settings(caps, th, wordLevel, verbose, textCtx - RESERVED_CONTEXT,
                        FramePrecision(precision), RoundTo3(totalSamples as real / SAMPLE_RATE as real));
      match RunSteps(words, segLens, letters, s, prober)
      case None => Err(EmptyWordList)
      case Some(ws) => Ok(ws)
  }
}

/** `curr_segments` of `refine`: the per-word search limits in seconds, the
    segment edge mask, and the batching of words into model calls. */
module RefineClamps {
  import opened Common

  /** A word with timestamps, as `refine` reads and rewrites it. */
  datatype RWord = RWord(text: string, start: real, end: real, probability: real)
  {
    function Duration(): real { end - start }
  }

  /** The optional `abs_dur_change` and `rel_dur_change` caps. */
  datatype DurCaps = DurCaps(absChange: Option<real>, relChange: Option<real>)

  const NO_CAPS := DurCaps(None, None)

  /** A word's start may not move further than this from its neighbours. */
  const NEIGHBOUR_WINDOW: real := 14.5

  /** The earliest start the search may propose for word `i`: never before
      0, never before the previous word's end, never more than 14.5 s before
      the word's own end, and within the optional caps. */
  function StartBound(ws: seq<RWord>, i: nat, caps: DurCaps): (r: real)
    requires i < |ws|
    ensures r >= 0.0
    ensures i > 0 ==> r >= ws[i - 1].end && r >= ws[i].end - NEIGHBOUR_WINDOW
    ensures caps.absChange.Some? ==> r >= ws[i].start - caps.absChange.value
    ensures caps.relChange.Some? ==> r >= ws[i].start - ws[i].Duration() * caps.relChange.value
  {
    MaxR(MaxR(StartByAbs(ws[i], caps), StartByRel(ws[i], caps)), StartByNeighbour(ws, i))
  }

  function StartByAbs(w: RWord, caps: DurCaps): real
  {
    if caps.absChange.None? then 0.0 else w.start - caps.absChange.value
  }

  function StartByRel(w: RWord, caps: DurCaps): real
  {
    if caps.relChange.None? then 0.0 else w.start - w.Duration() * caps.relChange.value
  }

  function StartByNeighbour(ws: seq<RWord>, i: nat): real
    requires i < |ws|
  {
    if i == 0 then 0.0 else MaxR(MaxR(ws[i - 1].end, ws[i].end - NEIGHBOUR_WINDOW), 0.0)
  }

  /** The latest end the search may propose for word `i`, symmetric to
      StartBound and never past the audio's duration. */
  function EndBound(ws: seq<RWord>, i: nat, total: real, caps: DurCaps): (r: real)
    requires i < |ws|
    ensures r <= total
    ensures i < |ws| - 1 ==> r <= ws[i + 1].start && r <= ws[i].start + NEIGHBOUR_WINDOW
    ensures caps.absChange.Some? ==> r <= ws[i].end + caps.absChange.value
    ensures caps.relChange.Some? ==> r <= ws[i].end + ws[i].Duration() * caps.relChange.value
  {
    MinR(MinR(EndByAbs(ws[i], caps, total), EndByRel(ws[i], caps, total)), EndByNeighbour(ws, i, total))
  }

  function EndByAbs(w: RWord, caps: DurCaps, total: real): real
  {
    if caps.absChange.None? then total else w.end + caps.absChange.value
  }

  function EndByRel(w: RWord, caps: DurCaps, total: real): real
  {
    if caps.relChange.None? then total else w.end + w.Duration() * caps.relChange.value
  }

  function EndByNeighbour(ws: seq<RWord>, i: nat, total: real): real
    requires i < |ws|
  {
    if i == |ws| - 1 then total else MinR(MinR(ws[i + 1].start, ws[i].start + NEIGHBOUR_WINDOW), total)
  }

  /** The bounds are the tightest ones: each equals one of the limits it
      must respect. */
  lemma BoundsAreTight(ws: seq<RWord>, i: nat, total: real, caps: DurCaps)
    requires i < |ws|
    ensures var r := StartBound(ws, i, caps);
      || r == 0.0
      || (i > 0 && (r == ws[i - 1].end || r == ws[i].end - NEIGHBOUR_WINDOW))
      || (caps.absChange.Some? && r == ws[i].start - caps.absChange.value)
      || (caps.relChange.Some? && r == ws[i].start - ws[i].Duration() * caps.relChange.value)
    ensures var r := EndBound(ws, i, total, caps);
      || r == total
      || (i < |ws| - 1 && (r == ws[i + 1].start || r == ws[i].start + NEIGHBOUR_WINDOW))
      || (caps.absChange.Some? && r == ws[i].end + caps.absChange.value)
      || (caps.relChange.Some? && r == ws[i].end + ws[i].Duration() * caps.relChange.value)
  {
    StartBoundTight(ws, i, caps);
    EndBoundTight(ws, i, total, caps);
  }

  lemma StartBoundTight(ws: seq<RWord>, i: nat, caps: DurCaps)
    requires i < |ws|
    ensures var r := StartBound(ws, i, caps);
      || r == 0.0
      || (i > 0 && (r == ws[i - 1].end || r == ws[i].end - NEIGHBOUR_WINDOW))
      || (caps.absChange.Some? && r == ws[i].start - caps.absChange.value)
      || (caps.relChange.Some? && r == ws[i].start - ws[i].Duration() * caps.relChange.value)
  {
    var sAbs, sRel, sNb := StartByAbs(ws[i], caps), StartByRel(ws[i], caps), StartByNeighbour(ws, i);
    var r := MaxR(MaxR(sAbs, sRel), sNb);
    assert StartBound(ws, i, caps) == r;
    MaxIsOne(MaxR(sAbs, sRel), sNb);
    if r == sNb {
      if i > 0 {
        MaxIsOne(MaxR(ws[i - 1].end, ws[i].end - NEIGHBOUR_WINDOW), 0.0);
        MaxIsOne(ws[i - 1].end, ws[i].end - NEIGHBOUR_WINDOW);
      }
    } else {
      MaxIsOne(sAbs, sRel);
    }
  }

  lemma EndBoundTight(ws: seq<RWord>, i: nat, total: real, caps: DurCaps)
    requires i < |ws|
    ensures var r := EndBound(ws, i, total, caps);
      || r == total
      || (i < |ws| - 1 && (r == ws[i + 1].start || r == ws[i].start + NEIGHBOUR_WINDOW))
      || (caps.absChange.Some? && r == ws[i].end + caps.absChange.value)
      || (caps.relChange.Some? && r == ws[i].end + ws[i].Duration() * caps.relChange.value)
  {
    var eAbs, eRel, eNb := EndByAbs(ws[i], caps, total), EndByRel(ws[i], caps, total), EndByNeighbour(ws, i, total);
    var r := MinR(MinR(eAbs, eRel), eNb);
    assert EndBound(ws, i, total, caps) == r;
    MinIsOne(MinR(eAbs, eRel), eNb);
    if r == eNb {
      if i < |ws| - 1 {
        MinIsOne(MinR(ws[i + 1].start, ws[i].start + NEIGHBOUR_WINDOW), total);
        MinIsOne(ws[i + 1].start, ws[i].start + NEIGHBOUR_WINDOW);
      }
    } else {
      MinIsOne(eAbs, eRel);
    }
  }

  lemma MaxIsOne(a: real, b: real)
    ensures MaxR(a, b) == a || MaxR(a, b) == b
  {
  }

  lemma MinIsOne(a: real, b: real)
    ensures MinR(a, b) == a || MinR(a, b) == b
  {
  }

  /** The optional caps can only narrow the search. */
  lemma CapsOnlyTighten(ws: seq<RWord>, i: nat, total: real, caps: DurCaps)
    requires i < |ws|
    ensures StartBound(ws, i, caps) >= StartBound(ws, i, NO_CAPS)
    ensures EndBound(ws, i, total, caps) <= EndBound(ws, i, total, NO_CAPS)
  {
  }

  /** Words in order, inside the audio, no longer than the neighbour window:
      the limits bracket the word, so its current timestamps stay reachable. */
  ghost predicate Ordered(ws: seq<RWord>, total: real)
  {
    && (forall i :: 0 <= i < |ws| ==> 0.0 <= ws[i].start <= ws[i].end <= total)
    && (forall i :: 0 <= i < |ws| ==> ws[i].Duration() <= NEIGHBOUR_WINDOW)
    && (forall i :: 0 < i < |ws| ==> ws[i - 1].end <= ws[i].start)
  }

  lemma BoundsBracketWord(ws: seq<RWord>, i: nat, total: real, caps: DurCaps)
    requires i < |ws| && Ordered(ws, total)
    requires caps.absChange.Some? ==> caps.absChange.value >= 0.0
    requires caps.relChange.Some? ==> caps.relChange.value >= 0.0
    ensures StartBound(ws, i, caps) <= ws[i].start
    ensures EndBound(ws, i, total, caps) >= ws[i].end
  {
    var w := ws[i];
    assert 0.0 <= w.start <= w.end <= total;
    assert w.Duration() <= NEIGHBOUR_WINDOW;
    var prevEnd := if i > 0 then ws[i - 1].end else 0.0;
    var nextStart := if i < |ws| - 1 then ws[i + 1].start else total;
    StartBoundBelow(ws, i, caps, prevEnd);
    EndBoundAbove(ws, i, total, caps, nextStart);
  }

  lemma StartBoundBelow(ws: seq<RWord>, i: nat, caps: DurCaps, prevEnd: real)
    requires i < |ws| && 0.0 <= ws[i].start <= ws[i].end && ws[i].Duration() <= NEIGHBOUR_WINDOW
    requires i > 0 ==> prevEnd == ws[i - 1].end && prevEnd <= ws[i].start
    requires caps.absChange.Some? ==> caps.absChange.value >= 0.0
    requires caps.relChange.Some? ==> caps.relChange.value >= 0.0
    ensures StartBound(ws, i, caps) <= ws[i].start
  {
    if caps.relChange.Some? {
      NonNegativeProduct(ws[i].Duration(), caps.relChange.value);
    }
  }

  lemma EndBoundAbove(ws: seq<RWord>, i: nat, total: real, caps: DurCaps, nextStart: real)
    requires i < |ws| && ws[i].start <= ws[i].end <= total && ws[i].Duration() <= NEIGHBOUR_WINDOW
    requires i < |ws| - 1 ==> nextStart == ws[i + 1].start && ws[i].end <= nextStart
    requires caps.absChange.Some? ==> caps.absChange.value >= 0.0
    requires caps.relChange.Some? ==> caps.relChange.value >= 0.0
    ensures EndBound(ws, i, total, caps) >= ws[i].end
  {
    if caps.relChange.Some? {
      NonNegativeProduct(ws[i].Duration(), caps.relChange.value);
    }
  }

  lemma NonNegativeProduct(d: real, c: real)
    requires d >= 0.0 && c >= 0.0
    ensures d * c >= 0.0
  {
  }

  /** Position of a word inside its segment: 1 for the first, 2 for the last
      of several, 0 otherwise. A one-word segment is marked first. */
  function SegMask(len: nat, k: int): (r: int)
    ensures r == 1 <==> k == 0
    ensures r == 2 <==> k != 0 && k == len - 1
  {
    if k == 0 then 1 else if k == len - 1 then 2 else 0
  }

  function Sum(ns: seq<nat>): nat
  {
    if |ns| == 0 then 0 else ns[0] + Sum(ns[1..])
  }

  /** `seg_edge_mask` over all words, segment by segment. */
  function EdgeMask(segLens: seq<nat>): (r: seq<int>)
    ensures |r| == Sum(segLens)
  {
    if |segLens| == 0 then []
    else seq(segLens[0], k => SegMask(segLens[0], k)) + EdgeMask(segLens[1..])
  }

  /** The mask entry of word `k` of segment `s` sits after all words of the
      earlier segments. */
  lemma {:induction false} EdgeMaskAt(segLens: seq<nat>, s: nat, k: nat)
    requires s < |segLens| && k < segLens[s]
    ensures Sum(segLens[..s]) + k < |EdgeMask(segLens)|
    ensures EdgeMask(segLens)[Sum(segLens[..s]) + k] == SegMask(segLens[s], k)
  {
    var head := seq(segLens[0], k => SegMask(segLens[0], k));
    assert EdgeMask(segLens) == head + EdgeMask(segLens[1..]);
    if s == 0 {
      assert segLens[..0] == [];
    } else {
      EdgeMaskAt(segLens[1..], s - 1, k);
      assert segLens[1..][..s - 1] == segLens[1..s];
      assert segLens[..s] == [segLens[0]] + segLens[1..s];
      assert Sum(segLens[..s]) == segLens[0] + Sum(segLens[1..s]);
    }
  }

  lemma SumPrefixCons(segLens: seq<nat>, s: nat)
    requires 0 < |segLens| && s < |segLens|
    ensures Sum(segLens[..s + 1]) == segLens[0] + Sum(segLens[1..][..s])
  {
    assert segLens[..s + 1][1..] == segLens[1..][..s];
  }

  /** The segment `s` and the position `j` inside it of flat word `i`. */
  function SegPos(segLens: seq<nat>, i: nat): (r: (nat, nat))
    requires i < Sum(segLens)
    ensures r.0 < |segLens| && r.1 < segLens[r.0]
    ensures Sum(segLens[..r.0]) + r.1 == i
    decreases |segLens|
  {
    if i < segLens[0] then
      assert segLens[..0] == [];
      (0, i)
    else
      var p := SegPos(segLens[1..], i - segLens[0]);
      SumPrefixCons(segLens, p.0);
      (p.0 + 1, p.1)
  }

  /** One batch: words `lo` to `hi - 1` of the flat word list. */
  datatype Batch = Batch(lo: nat, hi: nat)

  /** The break rule for word `j` in a batch that starts at word `b`. */
  predicate Breaks(starts: seq<real>, ends: seq<real>, maxWords: int, b: nat, j: nat)
    requires b < |starts| && j < |ends|
  {
    ends[j] - starts[b] > CHUNK_LENGTH as real || j - b + 1 > maxWords
  }

  /** The batch that holds words `b .. j-1` and the words after it. A new
      batch starts before word `j` when its end limit lies more than 30 s
      after the batch's first start limit, or when the batch already holds
      `maxWords` words. */
  function BatchesFrom(starts: seq<real>, ends: seq<real>, maxWords: int, b: nat, j: nat): (r: seq<Batch>)
    requires |starts| == |ends|
    requires b < j <= |ends|
    decreases |ends| - j
  {
    if j == |ends| then [Batch(b, j)]
    else if Breaks(starts, ends, maxWords, b, j) then
      [Batch(b, j)] + BatchesFrom(starts, ends, maxWords, j, j + 1)
    else BatchesFrom(starts, ends, maxWords, b, j + 1)
  }

  /** The batches of `curr_segments`; `None` when there is no word, where
      the source fails on `start_times[0]`. */
  function Batches(starts: seq<real>, ends: seq<real>, maxWords: int): (r: Option<seq<Batch>>)
    requires |starts| == |ends|
    ensures r.None? <==> |ends| == 0
  {
    if |ends| == 0 then None else Some(BatchesFrom(starts, ends, maxWords, 0, 1))
  }

  /** The batches are non-empty, consecutive, and cover words `lo` to `n - 1`. */
  ghost predicate Tiles(bs: seq<Batch>, lo: nat, n: nat)
  {
    && |bs| > 0
    && bs[0].lo == lo
    && bs[|bs| - 1].hi == n
    && (forall k :: 0 <= k < |bs| ==> bs[k].lo < bs[k].hi <= n)
    && (forall k :: 0 < k < |bs| ==> bs[k - 1].hi == bs[k].lo)
  }

  /** Inside a batch no break rule fired; before every later batch one did. */
  ghost predicate BreaksExactly(starts: seq<real>, ends: seq<real>, maxWords: int, bs: seq<Batch>)
    requires |starts| == |ends|
    requires forall k :: 0 <= k < |bs| ==> bs[k].lo < bs[k].hi <= |ends|
  {
    && (forall k, j :: 0 <= k < |bs| && bs[k].lo < j < bs[k].hi ==> !Breaks(starts, ends, maxWords, bs[k].lo, j))
    && (forall k :: 0 < k < |bs| ==> Breaks(starts, ends, maxWords, bs[k - 1].lo, bs[k].lo))
  }

  lemma {:induction false} BatchesFromTile(starts: seq<real>, ends: seq<real>, maxWords: int, b: nat, j: nat)
    requires |starts| == |ends|
    requires b < j <= |ends|
    ensures var bs := BatchesFrom(starts, ends, maxWords, b, j);
      Tiles(bs, b, |ends|) && bs[0].hi >= j
    decreases |ends| - j
  {
    var bs := BatchesFrom(starts, ends, maxWords, b, j);
    if j == |ends| {
    } else if Breaks(starts, ends, maxWords, b, j) {
      var rest := BatchesFrom(starts, ends, maxWords, j, j + 1);
      BatchesFromTile(starts, ends, maxWords, j, j + 1);
      assert bs == [Batch(b, j)] + rest;
      assert forall k :: 0 < k < |bs| ==> bs[k] == rest[k - 1];
    } else {
      BatchesFromTile(starts, ends, maxWords, b, j + 1);
    }
  }

  lemma {:induction false} BatchesFromBreaks(starts: seq<real>, ends: seq<real>, maxWords: int, b: nat, j: nat)
    requires |starts| == |ends|
    requires b < j <= |ends|
    requires forall i :: b < i < j ==> !Breaks(starts, ends, maxWords, b, i)
    ensures var bs := BatchesFrom(starts, ends, maxWords, b, j);
      Tiles(bs, b, |ends|) && BreaksExactly(starts, ends, maxWords, bs)
    decreases |ends| - j
  {
    BatchesFromTile(starts, ends, maxWords, b, j);
    var bs := BatchesFrom(starts, ends, maxWords, b, j);
    if j == |ends| {
      assert bs == [Batch(b, j)];
    } else if Breaks(starts, ends, maxWords, b, j) {
      var rest := BatchesFrom(starts, ends, maxWords, j, j + 1);
      BatchesFromBreaks(starts, ends, maxWords, j, j + 1);
      assert bs == [Batch(b, j)] + rest;
      assert bs[0] == Batch(b, j);
      forall k, i | 0 <= k < |bs| && bs[k].lo < i < bs[k].hi
        ensures !Breaks(starts, ends, maxWords, bs[k].lo, i)
      {
        if k > 0 {
          assert bs[k] == rest[k - 1];
        }
      }
      forall k | 0 < k < |bs|
        ensures Breaks(starts, ends, maxWords, bs[k - 1].lo, bs[k].lo)
      {
        assert bs[k] == rest[k - 1];
        if k > 1 {
          assert bs[k - 1] == rest[k - 2];
        }
      }
    } else {
      BatchesFromBreaks(starts, ends, maxWords, b, j + 1);
    }
  }

  /** The batches partition all words in order, each batch holds at most
      `maxWords` words (one when the cap is below one), and a batch ends
      exactly where the 30 s span or the word cap would be exceeded. */
  lemma BatchesPartition(starts: seq<real>, ends: seq<real>, maxWords: int)
    requires |starts| == |ends| && |ends| > 0
    ensures var bs := Batches(starts, ends, maxWords).value;
      && Tiles(bs, 0, |ends|)
      && (forall k :: 0 <= k < |bs| ==> bs[k].hi - bs[k].lo <= MaxI(maxWords, 1))
      && BreaksExactly(starts, ends, maxWords, bs)
  {
    BatchesFromBreaks(starts, ends, maxWords, 0, 1);
    var bs := Batches(starts, ends, maxWords).value;
    forall k | 0 <= k < |bs|
      ensures bs[k].hi - bs[k].lo <= MaxI(maxWords, 1)
    {
      if bs[k].hi - bs[k].lo > 1 {
        var j := bs[k].hi - 1;
        assert bs[k].lo < j < bs[k].hi;
        assert !Breaks(starts, ends, maxWords, bs[k].lo, j);
      }
    }
  }

  /** Cutting a list at consecutive batches and joining the pieces gives the
      list back: no word is lost or repeated. */
  function Pieces<T>(xs: seq<T>, bs: seq<Batch>): seq<seq<T>>
    requires forall k :: 0 <= k < |bs| ==> bs[k].lo <= bs[k].hi <= |xs|
  {
    seq(|bs|, k requires 0 <= k < |bs| => xs[bs[k].lo..bs[k].hi])
  }

  function Join<T>(xss: seq<seq<T>>): seq<T>
  {
    if |xss| == 0 then [] else xss[0] + Join(xss[1..])
  }

  lemma {:induction false} JoinPieces<T>(xs: seq<T>, bs: seq<Batch>, lo: nat)
    requires Tiles(bs, lo, |xs|)
    ensures Join(Pieces(xs, bs)) == xs[lo..]
    decreases |bs|
  {
    var ps := Pieces(xs, bs);
    if |bs| == 1 {
      assert bs[0] == Batch(lo, |xs|);
      assert ps[0] == xs[lo..];
      assert Join(ps) == ps[0] + Join(ps[1..]);
      assert ps[1..] == [];
    } else {
      var rest := bs[1..];
      assert Tiles(rest, bs[0].hi, |xs|) by {
        forall k | 0 < k < |rest| ensures rest[k - 1].hi == rest[k].lo {
          assert rest[k - 1] == bs[k] && rest[k] == bs[k + 1];
        }
      }
      JoinPieces(xs, rest, bs[0].hi);
      assert ps[1..] == Pieces(xs, rest);
      assert xs[lo..] == xs[lo..bs[0].hi] + xs[bs[0].hi..];
    }
  }

  /** A batch's edge mask is the slice of the word-level mask at its words. */
  function BatchMask(mask: seq<int>, b: Batch): (r: seq<int>)
    requires b.lo <= b.hi <= |mask|
    ensures |r| == b.hi - b.lo
    ensures forall k :: 0 <= k < |r| ==> r[k] == mask[b.lo + k]
  {
    mask[b.lo..b.hi]
  }

  /** Word `k` of a batch gets the mask of its position in its own segment,
      whichever segment that is: a batch may cross segment boundaries. */
  lemma BatchMaskAt(segLens: seq<nat>, b: Batch, k: nat)
    requires b.lo <= b.hi <= Sum(segLens) && k < b.hi - b.lo
    ensures var (s, j) := SegPos(segLens, b.lo + k);
      BatchMask(EdgeMask(segLens), b)[k] == SegMask(segLens[s], j)
  {
    var (s, j) := SegPos(segLens, b.lo + k);
    EdgeMaskAt(segLens, s, j);
  }
}

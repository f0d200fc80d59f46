/** The windowing controller of `align`: it takes a token-budgeted prefix of
    the pending words, has the external word timer time them against the
    current audio window, pushes unresolved trailing words back onto the
    queue and moves the sample cursor.

    The word timer (`add_word_timestamps_stable`, together with the mel
    computation it consumes) is a parameter: given the cursor, the number of
    samples in the window and the words, it returns the timed words it
    made of them. It may merge punctuation into neighbouring words, so its
    words need not be the ones it was given; what the loop conserves is
    stated against the words it returns. */
module AlignWindow {
  import opened Common

  /** A word still to be aligned: its text and its token ids. */
  datatype PendingWord = PendingWord(text: string, tokens: seq<int>)

  /** A word of the alignment result. */
  datatype TimedWord = TimedWord(word: PendingWord, start: real, end: real, probability: real)

  /** Zero duration is how the timer signals an unresolved word. */
  predicate Unresolved(w: TimedWord)
  {
    w.end - w.start == 0.0
  }

  function TokenCount(ws: seq<PendingWord>): nat
  {
    if |ws| == 0 then 0 else |ws[0].tokens| + TokenCount(ws[1..])
  }

  function Words(ts: seq<TimedWord>): (r: seq<PendingWord>)
    ensures |r| == |ts|
    ensures forall k :: 0 <= k < |ts| ==> r[k] == ts[k].word
  {
    seq(|ts|, k requires 0 <= k < |ts| => ts[k].word)
  }

  /** All token ids of the words, in order. */
  function AllTokens(ws: seq<PendingWord>): seq<int>
  {
    if |ws| == 0 then [] else ws[0].tokens + AllTokens(ws[1..])
  }

  lemma {:induction false} AllTokensAppend(a: seq<PendingWord>, b: seq<PendingWord>)
    ensures AllTokens(a + b) == AllTokens(a) + AllTokens(b)
  {
    if |a| > 0 {
      assert (a + b)[1..] == a[1..] + b;
      AllTokensAppend(a[1..], b);
    } else {
      assert a + b == b;
    }
  }

  /** The token count is the number of token ids. */
  lemma {:induction false} TokenCountIsLength(ws: seq<PendingWord>)
    ensures TokenCount(ws) == |AllTokens(ws)|
  {
    if |ws| > 0 {
      TokenCountIsLength(ws[1..]);
    }
  }

  lemma {:induction false} TokenCountAppend(a: seq<PendingWord>, b: seq<PendingWord>)
    ensures TokenCount(a + b) == TokenCount(a) + TokenCount(b)
  {
    if |a| > 0 {
      assert (a + b)[1..] == a[1..] + b;
      TokenCountAppend(a[1..], b);
    } else {
      assert a + b == b;
    }
  }

  lemma {:induction false} WordsAppend(a: seq<TimedWord>, b: seq<TimedWord>)
    ensures Words(a + b) == Words(a) + Words(b)
  {
  }

  // ---------------------------------------------------------------------
  // get_curr_words

  /** Number of words the budget loop takes from `ws`, having already taken
      words worth `used` tokens (`any` tells whether it has taken one). */
  function TakeCount(ws: seq<PendingWord>, budget: int, used: nat, any: bool): (n: nat)
    ensures n <= |ws|
    ensures !any && |ws| > 0 ==> n >= 1
    ensures (any || n > 1) ==> used + TokenCount(ws[..n]) <= budget || (any && n == 0 && used > budget)
    ensures n < |ws| ==> (any || n > 0) && used + TokenCount(ws[..n]) + |ws[n].tokens| > budget
    decreases |ws|
  {
    if |ws| == 0 then 0
    else if any && used + |ws[0].tokens| > budget then 0
    else
      var rest := TakeCount(ws[1..], budget, used + |ws[0].tokens|, true);
      assert ws[..1 + rest][1..] == ws[1..][..rest];
      1 + rest
  }

  /** `get_curr_words`: the longest prefix of the pending words whose tokens
      fit in the budget, but never less than one word. */
  function GetCurrWords(pending: seq<PendingWord>, budget: int): (r: (seq<PendingWord>, seq<PendingWord>))
    ensures r.0 + r.1 == pending
    ensures |pending| > 0 ==> |r.0| > 0
    ensures |r.0| > 1 ==> TokenCount(r.0) <= budget
    ensures |r.1| > 0 ==> |r.0| > 0 && TokenCount(r.0) + |r.1[0].tokens| > budget
  {
    var n := TakeCount(pending, budget, 0, false);
    assert pending[..n] + pending[n..] == pending;
    (pending[..n], pending[n..])
  }

  lemma {:induction false} TokenCountPrefixGrows(ws: seq<PendingWord>, a: nat, b: nat)
    requires a <= b <= |ws|
    ensures TokenCount(ws[..a]) <= TokenCount(ws[..b])
  {
    assert ws[..b] == ws[..a] + ws[a..b];
    TokenCountAppend(ws[..a], ws[a..b]);
  }

  /** The prefix chosen by `get_curr_words` is the only split of the pending
      words that is non-empty, within budget unless a single word, and
      maximal. */
  lemma {:induction false} GetCurrWordsUnique(pending: seq<PendingWord>, budget: int, taken: seq<PendingWord>, rest: seq<PendingWord>)
    requires taken + rest == pending
    requires |pending| > 0 ==> |taken| > 0
    requires |taken| > 1 ==> TokenCount(taken) <= budget
    requires |rest| > 0 ==> |taken| > 0 && TokenCount(taken) + |rest[0].tokens| > budget
    ensures (taken, rest) == GetCurrWords(pending, budget)
  {
    var (t, r) := GetCurrWords(pending, budget);
    assert taken == pending[..|taken|] && t == pending[..|t|];
    if |taken| < |t| {
      assert pending[..|taken| + 1] == taken + [rest[0]];
      TokenCountAppend(taken, [rest[0]]);
      assert TokenCount([rest[0]]) == |rest[0].tokens| by {
        assert [rest[0]][1..] == [];
      }
      TokenCountPrefixGrows(pending, |taken| + 1, |t|);
      assert false;
    } else if |t| < |taken| {
      assert pending[..|t| + 1] == t + [r[0]];
      TokenCountAppend(t, [r[0]]);
      assert TokenCount([r[0]]) == |r[0].tokens| by {
        assert [r[0]][1..] == [];
      }
      TokenCountPrefixGrows(pending, |t| + 1, |taken|);
      assert false;
    }
  }

  // ---------------------------------------------------------------------
  // Re-queue loop

  /** The loop at the end of every window, walking the extracted words from
      the back: zero-duration words go back onto the queue; the first word
      with a duration stops the walk, and is itself re-queued when the queue
      is not empty at that point. Returns the kept words and the re-queued
      ones (in their original order, to be put in front of the queue). */
  function RequeueLoop(ws: seq<TimedWord>, requeued: seq<TimedWord>, breakNext: bool, queueNonEmpty: bool): (r: (seq<TimedWord>, seq<TimedWord>))
    ensures r.0 + r.1 == ws + requeued
    decreases |ws|, if breakNext then 0 else 1
  {
    if |ws| == 0 then (ws, requeued)
    else
      var last := ws[|ws| - 1];
      if breakNext || Unresolved(last) then
        var q := [last] + requeued;
        assert ws[..|ws| - 1] + q == ws + requeued;
        if breakNext then (ws[..|ws| - 1], q)
        else RequeueLoop(ws[..|ws| - 1], q, false, true)
      else if queueNonEmpty then RequeueLoop(ws, requeued, true, queueNonEmpty)
      else (ws, requeued)
  }

  function Requeue(ws: seq<TimedWord>, queueNonEmpty: bool): (r: (seq<TimedWord>, seq<TimedWord>))
  {
    RequeueLoop(ws, [], false, queueNonEmpty)
  }

  /** Number of zero-duration words at the end of `ws`. */
  function TrailingUnresolved(ws: seq<TimedWord>): (z: nat)
    ensures z <= |ws|
    ensures forall k :: |ws| - z <= k < |ws| ==> Unresolved(ws[k])
    ensures z < |ws| ==> !Unresolved(ws[|ws| - z - 1])
  {
    if |ws| == 0 || !Unresolved(ws[|ws| - 1]) then 0
    else
      var z := TrailingUnresolved(ws[..|ws| - 1]);
      assert forall k :: |ws| - 1 - z <= k < |ws| - 1 ==> ws[..|ws| - 1][k] == ws[k];
      1 + z
  }

  /** How many words the re-queue loop gives back: every trailing
      zero-duration word, plus the last word with a duration when the queue
      is non-empty once those are back on it. */
  function RequeueCount(ws: seq<TimedWord>, queueNonEmpty: bool): nat
  {
    var z := TrailingUnresolved(ws);
    if z == |ws| then z
    else if queueNonEmpty || z > 0 then z + 1
    else z
  }

  lemma {:induction false} RequeueLoopCount(ws: seq<TimedWord>, requeued: seq<TimedWord>)
    ensures RequeueCount(ws, true) <= |ws|
    ensures RequeueLoop(ws, requeued, false, true) == (ws[..|ws| - RequeueCount(ws, true)], ws[|ws| - RequeueCount(ws, true)..] + requeued)
    decreases |ws|
  {
    if |ws| > 0 {
      var last := ws[|ws| - 1];
      var init := ws[..|ws| - 1];
      if Unresolved(last) {
        RequeueLoopCount(init, [last] + requeued);
        var c := RequeueCount(init, true);
        UnresolvedCountSnoc(ws);
        assert init[..|init| - c] == ws[..|ws| - (c + 1)];
        assert init[|init| - c..] + ([last] + requeued) == ws[|ws| - (c + 1)..] + requeued;
      } else {
        assert RequeueCount(ws, true) == 1;
        assert ws[|ws| - 1..] == [last];
      }
    } else {
      assert TrailingUnresolved(ws) == 0;
      assert ws[0..] + requeued == requeued;
    }
  }

  /** A zero-duration last word adds one to the count given back. */
  lemma {:induction false} UnresolvedCountSnoc(ws: seq<TimedWord>)
    requires |ws| > 0 && Unresolved(ws[|ws| - 1])
    ensures forall q :: RequeueCount(ws, q) == RequeueCount(ws[..|ws| - 1], true) + 1
  {
    var init := ws[..|ws| - 1];
    assert TrailingUnresolved(ws) == TrailingUnresolved(init) + 1;
  }

  /** The re-queue loop gives back exactly `RequeueCount` words from the end
      and keeps the rest, in order. */
  lemma {:induction false} RequeueSplits(ws: seq<TimedWord>, queueNonEmpty: bool)
    ensures var r := Requeue(ws, queueNonEmpty); var c := RequeueCount(ws, queueNonEmpty);
      c <= |ws| && r.0 == ws[..|ws| - c] && r.1 == ws[|ws| - c..]
  {
    if |ws| > 0 {
      var last := ws[|ws| - 1];
      var init := ws[..|ws| - 1];
      if Unresolved(last) {
        assert [last] + [] == [last];
        assert Requeue(ws, queueNonEmpty) == RequeueLoop(init, [last], false, true);
        RequeueLoopCount(init, [last]);
        UnresolvedCountSnoc(ws);
        var c := RequeueCount(init, true);
        assert init[..|init| - c] == ws[..|ws| - (c + 1)];
        assert init[|init| - c..] + [last] == ws[|ws| - (c + 1)..];
      } else if queueNonEmpty {
        assert [last] + [] == [last];
        assert Requeue(ws, queueNonEmpty) == RequeueLoop(ws, [], true, true) == (init, [last]);
        assert ws[|ws| - 1..] == [last];
      }
    }
  }

  /** The re-queue loop in the terms the caller relies on: words are
      conserved, all trailing zero-duration words go back, exactly one more
      word goes back when the queue is not empty (before or after those), and
      none when the queue is empty and the last word has a duration. */
  lemma {:induction false} RequeueProperties(ws: seq<TimedWord>, queueNonEmpty: bool)
    ensures var (kept, back) := Requeue(ws, queueNonEmpty); var z := TrailingUnresolved(ws);
      && kept + back == ws
      && |back| >= z
      && (forall k :: |back| - z <= k < |back| ==> Unresolved(back[k]))
      && (z < |ws| && (queueNonEmpty || z > 0) ==> |back| == z + 1 && !Unresolved(back[0]))
      && (!queueNonEmpty && z == 0 ==> back == [] && kept == ws)
  {
    RequeueSplits(ws, queueNonEmpty);
    var c := RequeueCount(ws, queueNonEmpty);
    assert ws[..|ws| - c] + ws[|ws| - c..] == ws;
  }

  // ---------------------------------------------------------------------
  // One window and the loop

  /** Samples in the window that starts at `seek`: the length of
      `audio[seek:seek + N_SAMPLES]`, with Python's slice rules. */
  function WindowSamples(seek: int, totalSamples: nat): (n: nat)
    ensures n <= N_SAMPLES
    ensures 0 <= seek < totalSamples ==> 0 < n && seek + n <= totalSamples
  {
    SliceLen(totalSamples, seek, seek + N_SAMPLES)
  }

  /** The word timer: cursor, samples in the window, words to time. */
  type Extractor = (int, nat, seq<PendingWord>) -> seq<TimedWord>

  /** A timer that returns exactly the words it was given (no punctuation
      merged into a neighbour, no word dropped). */
  ghost predicate KeepsWords(extract: Extractor)
  {
    forall seek, n, ws :: Words(extract(seek, n, ws)) == ws
  }

  /** A timer that may regroup words but loses and adds no token. */
  ghost predicate KeepsTokens(extract: Extractor)
  {
    forall seek, n, ws :: AllTokens(Words(extract(seek, n, ws))) == AllTokens(ws)
  }

  lemma KeepsWordsKeepsTokens(extract: Extractor)
    requires KeepsWords(extract)
    ensures KeepsTokens(extract)
  {
  }

  /** Where the cursor goes after a window: to the end of the last kept word
      (in samples, rounded half to even), or past the window when nothing
      was kept. */
  function NextSeek(seek: int, windowSamples: nat, kept: seq<TimedWord>): (r: int)
    ensures |kept| == 0 ==> r == seek + windowSamples
    ensures |kept| > 0 ==> IsRoundHalfEven(kept[|kept| - 1].end * SAMPLE_RATE as real, r)
  {
    if |kept| > 0 then RoundReal(kept[|kept| - 1].end * SAMPLE_RATE as real)
    else seek + windowSamples
  }

  /** When the last kept word ends inside the window, the cursor moves to a
      sample inside the window: never back, never past it. */
  lemma NextSeekInWindow(seek: int, windowSamples: nat, kept: seq<TimedWord>)
    requires |kept| > 0
    requires seek as real <= kept[|kept| - 1].end * SAMPLE_RATE as real <= (seek + windowSamples) as real
    ensures seek <= NextSeek(seek, windowSamples, kept) <= seek + windowSamples
  {
    var x := kept[|kept| - 1].end * SAMPLE_RATE as real;
    RoundRealMonotone(seek as real, x);
    RoundRealMonotone(x, (seek + windowSamples) as real);
    RoundRealOfInt(seek);
    RoundRealOfInt(seek + windowSamples);
  }

  /** What one window does to the queue: the timed words it kept and the
      ones it puts back in front of the words it did not take. */
  datatype WindowOutcome = WindowOutcome(kept: seq<TimedWord>, back: seq<TimedWord>, rest: seq<PendingWord>)

  /** The window's words are taken by `get_curr_words`; `timed` is what the
      timer made of them. */
  function Window(pending: seq<PendingWord>, budget: int, timed: seq<TimedWord>): (o: WindowOutcome)
    ensures o.kept + o.back == timed
    ensures GetCurrWords(pending, budget).0 + o.rest == pending
  {
    var split := GetCurrWords(pending, budget);
    var rq := Requeue(timed, |split.1| > 0);
    assert timed + [] == timed;
    WindowOutcome(rq.0, rq.1, split.1)
  }

  datatype AlignState = AlignState(pending: seq<PendingWord>, seek: int, finishedTokens: nat, result: seq<TimedWord>)

  /** One pass of the `align` loop body, with `timed` the timer's answer. */
  function AlignStep(st: AlignState, budget: int, totalSamples: nat, timed: seq<TimedWord>): (r: AlignState)
  {
    var o := Window(st.pending, budget, timed);
    AlignState(Words(o.back) + o.rest, NextSeek(st.seek, WindowSamples(st.seek, totalSamples), o.kept),
               st.finishedTokens + TokenCount(Words(o.kept)), st.result + o.kept)
  }

  /** A window only appends to the result, and the timer's words are split
      between the result and the front of the queue: none is lost, repeated
      or reordered. The progress count stays the token count of the result. */
  lemma {:induction false} AlignStepSplitsTimed(st: AlignState, budget: int, totalSamples: nat, timed: seq<TimedWord>)
    ensures var r := AlignStep(st, budget, totalSamples, timed);
      && |r.result| >= |st.result| && r.result[..|st.result|] == st.result
      && Words(r.result) + r.pending == Words(st.result) + Words(timed) + GetCurrWords(st.pending, budget).1
      && (st.finishedTokens == TokenCount(Words(st.result)) ==> r.finishedTokens == TokenCount(Words(r.result)))
  {
    var o := Window(st.pending, budget, timed);
    var r := AlignStep(st, budget, totalSamples, timed);
    assert r.result == st.result + o.kept;
    WordsAppend(st.result, o.kept);
    WordsAppend(o.kept, o.back);
    TokenCountAppend(Words(st.result), Words(o.kept));
    var front, taken, back := Words(st.result), Words(o.kept), Words(o.back);
    assert Words(r.result) == front + taken && r.pending == back + o.rest;
    assert taken + back == Words(timed);
    ConcatAssoc(front, taken, back + o.rest);
    ConcatAssoc(taken, back, o.rest);
    ConcatAssoc(front, Words(timed), o.rest);
  }

  /** So the words are conserved when the timer returns the words it was
      given, and the token ids are when it only regroups them. */
  lemma {:induction false} AlignStepConserves(st: AlignState, budget: int, totalSamples: nat, timed: seq<TimedWord>)
    ensures var r := AlignStep(st, budget, totalSamples, timed); var split := GetCurrWords(st.pending, budget);
      && (Words(timed) == split.0 ==> Words(r.result) + r.pending == Words(st.result) + st.pending)
      && (AllTokens(Words(timed)) == AllTokens(split.0) ==>
            AllTokens(Words(r.result) + r.pending) == AllTokens(Words(st.result) + st.pending))
  {
    var r := AlignStep(st, budget, totalSamples, timed);
    var split := GetCurrWords(st.pending, budget);
    AlignStepSplitsTimed(st, budget, totalSamples, timed);
    assert split.0 + split.1 == st.pending;
    if Words(timed) == split.0 {
      ConcatAssoc(Words(st.result), split.0, split.1);
    }
    if AllTokens(Words(timed)) == AllTokens(split.0) {
      RegroupKeepsTokens(Words(st.result), Words(timed), split.0, split.1);
    }
  }

  /** Replacing a middle part by one with the same token ids keeps the
      token ids of the whole. */
  lemma RegroupKeepsTokens(front: seq<PendingWord>, timed: seq<PendingWord>, taken: seq<PendingWord>, rest: seq<PendingWord>)
    requires AllTokens(timed) == AllTokens(taken)
    ensures AllTokens(front + timed + rest) == AllTokens(front + (taken + rest))
  {
    var f, t, r := AllTokens(front), AllTokens(timed), AllTokens(rest);
    AllTokensAppend(front + timed, rest);
    AllTokensAppend(front, timed);
    assert AllTokens(front + timed + rest) == (f + t) + r;
    AllTokensAppend(taken, rest);
    AllTokensAppend(front, taken + rest);
    assert AllTokens(front + (taken + rest)) == f + (t + r);
    ConcatAssoc(f, t, r);
  }

  lemma ConcatAssoc<T>(a: seq<T>, b: seq<T>, c: seq<T>)
    ensures (a + b) + c == a + (b + c)
  {
  }

  /** The `while words and seek_sample < total_samples` loop, run for at
      most `fuel` windows. */
  function AlignLoop(st: AlignState, budget: int, totalSamples: nat, extract: Extractor, fuel: nat): (r: AlignState)
    ensures |r.result| >= |st.result| && r.result[..|st.result|] == st.result
    ensures KeepsWords(extract) ==> Words(r.result) + r.pending == Words(st.result) + st.pending
    ensures KeepsTokens(extract) ==> AllTokens(Words(r.result) + r.pending) == AllTokens(Words(st.result) + st.pending)
    ensures st.finishedTokens == TokenCount(Words(st.result)) ==> r.finishedTokens == TokenCount(Words(r.result))
    ensures fuel > 0 && (|st.pending| == 0 || st.seek >= totalSamples) ==> r == st
    decreases fuel
  {
    if fuel == 0 || |st.pending| == 0 || st.seek >= totalSamples then st
    else
      var curr := GetCurrWords(st.pending, budget).0;
      var timed := extract(st.seek, WindowSamples(st.seek, totalSamples), curr);
      var next := AlignStep(st, budget, totalSamples, timed);
      AlignStepSplitsTimed(st, budget, totalSamples, timed);
      AlignStepConserves(st, budget, totalSamples, timed);
      var r := AlignLoop(next, budget, totalSamples, extract, fuel - 1);
      PrefixTrans(st.result, next.result, r.result);
      r
  }

  lemma PrefixTrans<T>(a: seq<T>, b: seq<T>, c: seq<T>)
    requires |a| <= |b| <= |c| && b[..|a|] == a && c[..|b|] == b
    ensures c[..|a|] == a
  {
    assert c[..|a|] == c[..|b|][..|a|];
  }

  /** The leftover fill at the end of the audio: every word still pending is
      placed at the end of the audio, with zero duration and probability 0. */
  function FillLeftover(pending: seq<PendingWord>, totalSamples: nat): (r: seq<TimedWord>)
    ensures Words(r) == pending
    ensures forall k :: 0 <= k < |r| ==>
      Unresolved(r[k]) && r[k].probability == 0.0 && r[k].start == RoundTo3(totalSamples as real / SAMPLE_RATE as real)
  {
    var duration := RoundTo3(totalSamples as real / SAMPLE_RATE as real);
    seq(|pending|, k requires 0 <= k < |pending| => TimedWord(pending[k], duration, duration, 0.0))
  }

  /** The word list `align` ends with (before regrouping): the loop's result,
      followed by the leftover words unless they are to be removed. */
  function AlignedWords(words: seq<PendingWord>, budget: int, totalSamples: nat, removeInstantWords: bool,
                        extract: Extractor, fuel: nat): (r: seq<TimedWord>)
  {
    var st := AlignLoop(AlignState(words, 0, 0, []), budget, totalSamples, extract, fuel);
    if |st.pending| > 0 && !removeInstantWords then st.result + FillLeftover(st.pending, totalSamples)
    else st.result
  }

  /** No word is lost, duplicated or reordered when the timer keeps the
      words it was given: keeping instant words, the result holds exactly
      the input words; removing them, a prefix of them. When the timer only
      regroups words, the same holds of the token ids. */
  lemma {:induction false} AlignedWordsConserve(words: seq<PendingWord>, budget: int, totalSamples: nat, removeInstantWords: bool,
                                                extract: Extractor, fuel: nat)
    ensures var r := AlignedWords(words, budget, totalSamples, removeInstantWords, extract, fuel);
      && (KeepsWords(extract) && !removeInstantWords ==> Words(r) == words)
      && (KeepsWords(extract) && removeInstantWords ==> |r| <= |words| && Words(r) == words[..|r|])
      && (KeepsTokens(extract) && !removeInstantWords ==> AllTokens(Words(r)) == AllTokens(words))
      && (KeepsTokens(extract) && removeInstantWords ==>
            |AllTokens(Words(r))| <= |AllTokens(words)| && AllTokens(Words(r)) == AllTokens(words)[..|AllTokens(Words(r))|])
  {
    var st := AlignLoop(AlignState(words, 0, 0, []), budget, totalSamples, extract, fuel);
    var r := AlignedWords(words, budget, totalSamples, removeInstantWords, extract, fuel);
    assert Words([]) + words == words;
    if |st.pending| > 0 && !removeInstantWords {
      WordsAppend(st.result, FillLeftover(st.pending, totalSamples));
      assert Words(r) == Words(st.result) + st.pending;
    } else {
      assert r == st.result;
      if !removeInstantWords {
        assert st.pending == [];
        assert Words(st.result) + st.pending == Words(st.result);
      }
    }
    if KeepsTokens(extract) {
      AllTokensAppend(Words(st.result), st.pending);
      if removeInstantWords {
        var a, b := AllTokens(Words(st.result)), AllTokens(st.pending);
        assert (a + b)[..|a|] == a;
      }
    }
  }

  /** The progress count is the number of tokens of the words resolved so
      far, and when the timer loses no token it never exceeds the total. */
  lemma {:induction false} AlignProgressCountsResolvedTokens(words: seq<PendingWord>, budget: int, totalSamples: nat,
                                                             extract: Extractor, fuel: nat)
    ensures var st := AlignLoop(AlignState(words, 0, 0, []), budget, totalSamples, extract, fuel);
      && st.finishedTokens == TokenCount(Words(st.result))
      && (KeepsTokens(extract) ==> st.finishedTokens <= TokenCount(words))
  {
    var st := AlignLoop(AlignState(words, 0, 0, []), budget, totalSamples, extract, fuel);
    assert Words([]) + words == words;
    if KeepsTokens(extract) {
      AllTokensAppend(Words(st.result), st.pending);
      TokenCountIsLength(Words(st.result));
      TokenCountIsLength(words);
    }
  }
}

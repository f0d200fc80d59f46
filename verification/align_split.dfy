/** The end of `align`: splitting the aligned words back into the original
    segments (by character counts), and the composition of the whole
    procedure from the budget check to the split. Regrouping and silence
    suppression of the result container are not part of this model. */
module AlignSplit {
  import opened Common
  import opened AlignText
  import opened AlignWindow

  /** Number of characters in the words' texts. */
  function CharCount(ws: seq<TimedWord>): nat
  {
    if |ws| == 0 then 0 else CharCount(ws[..|ws| - 1]) + |ws[|ws| - 1].word.text|
  }

  lemma {:induction false} CharCountGrows(ws: seq<TimedWord>, a: nat, b: nat)
    requires a <= b <= |ws|
    ensures CharCount(ws[..a]) <= CharCount(ws[..b])
    decreases b - a
  {
    if a < b {
      CharCountGrows(ws, a, b - 1);
      assert ws[..b][..b - 1] == ws[..b - 1];
    }
  }

  /** `(word_lens >= target).nonzero()[0][0] + 1`: the number of leading
      words whose texts first reach `target` characters, searching from
      `from` words on; `None` is the IndexError of an index past the end. */
  function WordsToReach(ws: seq<TimedWord>, target: int, from: nat): (r: Option<nat>)
    requires 1 <= from <= |ws| + 1
    ensures r.Some? ==> from <= r.value <= |ws| && CharCount(ws[..r.value]) >= target
    ensures r.Some? ==> forall m :: from <= m < r.value ==> CharCount(ws[..m]) < target
    ensures r.None? <==> forall m :: from <= m <= |ws| ==> CharCount(ws[..m]) < target
    decreases |ws| + 1 - from
  {
    if from > |ws| then None
    else if CharCount(ws[..from]) >= target then Some(from)
    else WordsToReach(ws, target, from + 1)
  }

  function SplitIndices(ws: seq<TimedWord>, charBounds: seq<int>): (r: Result<seq<nat>, AlignError>)
    requires |ws| > 0
    ensures r.Ok? ==> |r.value| == |charBounds|
    ensures r.Ok? ==> forall k :: 0 <= k < |charBounds| ==> WordsToReach(ws, charBounds[k], 1) == Some(r.value[k])
    ensures r.Err? <==> exists k :: 0 <= k < |charBounds| && WordsToReach(ws, charBounds[k], 1).None?
  {
    if |charBounds| == 0 then Ok([])
    else
      match WordsToReach(ws, charBounds[0], 1)
      case None => Err(SplitIndexOutOfRange(charBounds[0]))
      case Some(n) =>
        match SplitIndices(ws, charBounds[1..])
        case Err(e) =>
          UnreachableInTail(ws, charBounds);
          Err(e)
        case Ok(rest) =>
          assert forall k :: 1 <= k < |charBounds| ==> charBounds[k] == charBounds[1..][k - 1];
          Ok([n] + rest)
  }

  lemma UnreachableInTail(ws: seq<TimedWord>, charBounds: seq<int>)
    requires |ws| > 0 && |charBounds| > 0
    requires exists k :: 0 <= k < |charBounds[1..]| && WordsToReach(ws, charBounds[1..][k], 1).None?
    ensures exists k :: 0 <= k < |charBounds| && WordsToReach(ws, charBounds[k], 1).None?
  {
    var k :| 0 <= k < |charBounds[1..]| && WordsToReach(ws, charBounds[1..][k], 1).None?;
    assert charBounds[1..][k] == charBounds[k + 1];
  }

  /** Python's `s[i:j]` for `0 <= i, j <= len(s)`. */
  function Slice<T>(s: seq<T>, i: nat, j: nat): seq<T>
    requires i <= |s| && j <= |s|
  {
    if i <= j then s[i..j] else []
  }

  /** `[result[i:j] for i, j in zip([0] + split_indices[:-1], split_indices)]` */
  function Segments(ws: seq<TimedWord>, indices: seq<nat>, from: nat): (r: seq<seq<TimedWord>>)
    requires from <= |ws|
    requires forall k :: 0 <= k < |indices| ==> indices[k] <= |ws|
    ensures |r| == |indices|
  {
    if |indices| == 0 then []
    else [Slice(ws, from, indices[0])] + Segments(ws, indices[1..], indices[0])
  }

  function Flatten(segs: seq<seq<TimedWord>>): seq<TimedWord>
  {
    if |segs| == 0 then [] else segs[0] + Flatten(segs[1..])
  }

  /** With non-decreasing indices the segments are consecutive slices that
      together hold exactly the words up to the last index. */
  lemma {:induction false} SegmentsPartition(ws: seq<TimedWord>, indices: seq<nat>, from: nat)
    requires from <= |ws|
    requires forall k :: 0 <= k < |indices| ==> from <= indices[k] <= |ws|
    requires forall k, l :: 0 <= k <= l < |indices| ==> indices[k] <= indices[l]
    ensures var segs := Segments(ws, indices, from);
      && Flatten(segs) == ws[from..(if |indices| == 0 then from else indices[|indices| - 1])]
      && forall k :: 0 <= k < |indices| ==> segs[k] == ws[(if k == 0 then from else indices[k - 1])..indices[k]]
  {
    if |indices| > 0 {
      var rest := indices[1..];
      forall k | 0 <= k < |rest|
        ensures indices[0] <= rest[k] <= |ws|
      {
        assert rest[k] == indices[k + 1];
      }
      forall k, l | 0 <= k <= l < |rest|
        ensures rest[k] <= rest[l]
      {
        assert rest[k] == indices[k + 1] && rest[l] == indices[l + 1];
      }
      SegmentsPartition(ws, rest, indices[0]);
      var segs := Segments(ws, indices, from);
      assert segs == [ws[from..indices[0]]] + Segments(ws, rest, indices[0]);
      var last := if |rest| == 0 then indices[0] else rest[|rest| - 1];
      assert last == indices[|indices| - 1];
      assert ws[from..last] == ws[from..indices[0]] + ws[indices[0]..last];
      forall k | 1 <= k < |indices|
        ensures segs[k] == ws[indices[k - 1]..indices[k]]
      {
        assert segs[k] == Segments(ws, rest, indices[0])[k - 1];
        assert rest[k - 1] == indices[k];
      }
    }
  }

  /** The character bounds reach in order, so the word indices do too. */
  lemma SplitIndicesOrdered(ws: seq<TimedWord>, charBounds: seq<int>)
    requires |ws| > 0
    requires SplitIndices(ws, charBounds).Ok?
    requires forall k, l :: 0 <= k <= l < |charBounds| ==> charBounds[k] <= charBounds[l]
    ensures var idx := SplitIndices(ws, charBounds).value;
      forall k, l :: 0 <= k <= l < |idx| ==> 1 <= idx[k] <= idx[l] <= |ws|
  {
    var idx := SplitIndices(ws, charBounds).value;
    forall k, l | 0 <= k <= l < |idx|
      ensures 1 <= idx[k] <= idx[l] <= |ws|
    {
      assert WordsToReach(ws, charBounds[k], 1) == Some(idx[k]);
      assert WordsToReach(ws, charBounds[l], 1) == Some(idx[l]);
      if idx[l] < idx[k] {
        assert false;
      }
    }
  }

  /** Splitting the flat word list by the character bounds of the original
      segments or lines; no bounds means one segment. */
  function SplitByChars(ws: seq<TimedWord>, charBounds: seq<int>): (r: Result<seq<seq<TimedWord>>, AlignError>)
    requires |ws| > 0
    ensures r.Err? <==> SplitIndices(ws, charBounds).Err?
    ensures |charBounds| == 0 ==> r == Ok([ws])
    ensures r.Ok? && |charBounds| > 0 ==> |r.value| == |charBounds|
  {
    if |charBounds| == 0 then Ok([ws])
    else
      match SplitIndices(ws, charBounds)
      case Err(e) => Err(e)
      case Ok(idx) => Ok(Segments(ws, idx, 0))
  }

  /** With ordered character bounds, the segments are consecutive slices of
      the aligned words, and together hold every word up to the word that
      reaches the last bound. */
  lemma SplitByCharsPartition(ws: seq<TimedWord>, charBounds: seq<int>)
    requires |ws| > 0 && |charBounds| > 0
    requires SplitByChars(ws, charBounds).Ok?
    requires forall k, l :: 0 <= k <= l < |charBounds| ==> charBounds[k] <= charBounds[l]
    ensures var idx := SplitIndices(ws, charBounds).value; var segs := SplitByChars(ws, charBounds).value;
      && Flatten(segs) == ws[..idx[|idx| - 1]]
      && forall k :: 0 <= k < |segs| ==> segs[k] == ws[(if k == 0 then 0 else idx[k - 1])..idx[k]]
  {
    SplitIndicesOrdered(ws, charBounds);
    var idx := SplitIndices(ws, charBounds).value;
    SegmentsPartition(ws, idx, 0);
  }

  /** `align` end to end on already tokenised words: the budget check, the
      windowed alignment with the leftover fill, the empty result (`None`),
      and the split back into segments. */
  function Align(words: seq<PendingWord>, tokenStep: int, textCtx: int, totalSamples: nat,
                 removeInstantWords: bool, charBounds: seq<int>,
                 extract: Extractor, fuel: nat): (r: Result<Option<seq<seq<TimedWord>>>, AlignError>)
    ensures TokenStep(tokenStep, textCtx).Err? ==> r.Err? && r.error == TokenStep(tokenStep, textCtx).error
    ensures TokenStep(tokenStep, textCtx).Ok? ==>
      var aligned := AlignedWords(words, TokenStep(tokenStep, textCtx).value, totalSamples, removeInstantWords, extract, fuel);
      && (r == Ok(None) <==> |aligned| == 0)
      && (|aligned| > 0 && |charBounds| == 0 ==> r == Ok(Some([aligned])))
      && (|aligned| > 0 ==> (r.Err? <==> SplitIndices(aligned, charBounds).Err?))
      && (|aligned| > 0 && SplitByChars(aligned, charBounds).Ok? ==> r == Ok(Some(SplitByChars(aligned, charBounds).value)))
  {
    match TokenStep(tokenStep, textCtx)
    case Err(e) => Err(e)
    case Ok(budget) =>
      var aligned := AlignedWords(words, budget, totalSamples, removeInstantWords, extract, fuel);
      if |aligned| == 0 then Ok(None)
      else
        match SplitByChars(aligned, charBounds)
        case Err(e) => Err(e)
        case Ok(segs) => Ok(Some(segs))
  }

  /** Without removal of instant words and without a kept split, the single
      segment `align` returns holds every input word, in order, when the
      timer returns the words it was given; when it only regroups them, the
      segment holds every input token, in order. */
  lemma AlignKeepsEveryWord(words: seq<PendingWord>, tokenStep: int, textCtx: int, totalSamples: nat,
                            extract: Extractor, fuel: nat)
    ensures var r := Align(words, tokenStep, textCtx, totalSamples, false, [], extract, fuel);
      && (KeepsWords(extract) && |words| > 0 && TokenStep(tokenStep, textCtx).Ok? ==>
            r.Ok? && r.value.Some? && |r.value.value| == 1 && Words(r.value.value[0]) == words)
      && (KeepsTokens(extract) && |AllTokens(words)| > 0 && TokenStep(tokenStep, textCtx).Ok? ==>
            r.Ok? && r.value.Some? && |r.value.value| == 1 && AllTokens(Words(r.value.value[0])) == AllTokens(words))
  {
    if TokenStep(tokenStep, textCtx).Ok? {
      AlignedWordsConserve(words, TokenStep(tokenStep, textCtx).value, totalSamples, false, extract, fuel);
    }
  }
}

/** Input preparation of `align`: the `token_step` option, whitespace
    normalisation of plain text (with and without keeping the original line
    split) and removal of special tokens. Tokenisation itself is done by the
    external tokenizer and is not part of this model. */
module AlignText {
  import opened Common

  datatype AlignError =
    | TokenStepTooLarge(maxStep: int, requested: int)
    | SplitIndexOutOfRange(charIndex: int)

  /** Tokens of the text context the model keeps for its own prompt. */
  const RESERVED_CONTEXT: int := 6

  /** Resolves the per-pass token budget: a value below one selects the
      largest budget the model context allows, a larger one is an error. */
  function TokenStep(requested: int, textCtx: int): (r: Result<int, AlignError>)
    ensures r.Err? <==> 1 <= requested && requested > textCtx - RESERVED_CONTEXT
    ensures r.Err? ==> r.error == TokenStepTooLarge(textCtx - RESERVED_CONTEXT, requested)
    ensures r.Ok? && requested >= 1 ==> r.value == requested && r.value <= textCtx - RESERVED_CONTEXT
    ensures r.Ok? && requested < 1 ==> r.value == textCtx - RESERVED_CONTEXT
  {
    var maxStep := textCtx - RESERVED_CONTEXT;
    if requested < 1 then Ok(maxStep)
    else if requested > maxStep then Err(TokenStepTooLarge(maxStep, requested))
    else Ok(requested)
  }

  /** A resolved budget lies in the context the model leaves for text, and
      resolving it again changes nothing. */
  lemma TokenStepResolved(requested: int, textCtx: int)
    ensures TokenStep(requested, textCtx).Ok? ==>
      var step := TokenStep(requested, textCtx).value;
      && step <= textCtx - RESERVED_CONTEXT
      && (textCtx - RESERVED_CONTEXT >= 1 ==> 1 <= step)
      && TokenStep(step, textCtx) == TokenStep(requested, textCtx)
  {
  }

  /** The characters Python's `\s` matches in a `str` pattern (`str.isspace`). */
  predicate IsSpace(c: char)
  {
    || c == ' '
    || ('\t' <= c <= '\r')
    || ('\U{1c}' <= c <= '\U{1f}')
    || c == '\U{85}' || c == '\U{a0}' || c == '\U{1680}'
    || ('\U{2000}' <= c <= '\U{200a}')
    || c == '\U{2028}' || c == '\U{2029}' || c == '\U{202f}' || c == '\U{205f}' || c == '\U{3000}'
  }

  /** The line boundaries `str.splitlines` splits on (`\r\n` counts once). */
  predicate IsLineBoundary(c: char)
  {
    || c == '\n' || c == '\r' || c == '\U{0b}' || c == '\U{0c}'
    || ('\U{1c}' <= c <= '\U{1e}')
    || c == '\U{85}' || c == '\U{2028}' || c == '\U{2029}'
  }

  /** `re.sub(r'\s', ' ', s)`: every whitespace character becomes a space. */
  function SpacesOnly(s: string): (r: string)
    ensures |r| == |s|
    ensures forall i :: 0 <= i < |s| ==> (IsSpace(s[i]) ==> r[i] == ' ') && (!IsSpace(s[i]) ==> r[i] == s[i])
  {
    seq(|s|, i requires 0 <= i < |s| => if IsSpace(s[i]) then ' ' else s[i])
  }

  /** A string whose only whitespace is the plain space. */
  ghost predicate Normalised(s: string)
  {
    forall i :: 0 <= i < |s| ==> IsSpace(s[i]) ==> s[i] == ' '
  }

  /** Plain text without a kept line split: whitespace becomes spaces and a
      leading space is added unless the text already starts with one. */
  function NormalisePlain(text: string): (r: string)
    ensures |r| > 0 && r[0] == ' '
    ensures Normalised(r)
    ensures var k := |r| - |text|;
      && (k == 0 || k == 1)
      && (k == 0 <==> |text| > 0 && IsSpace(text[0]))
      && forall i :: 0 <= i < |text| ==> (IsSpace(text[i]) ==> r[i + k] == ' ') && (!IsSpace(text[i]) ==> r[i + k] == text[i])
  {
    var t := SpacesOnly(text);
    if |t| > 0 && t[0] == ' ' then t else [' '] + t
  }

  /** Normalising plain text a second time changes nothing. */
  lemma {:induction false} NormalisePlainIdempotent(text: string)
    ensures NormalisePlain(NormalisePlain(text)) == NormalisePlain(text)
  {
    var once := NormalisePlain(text);
    var twice := NormalisePlain(once);
    assert IsSpace(once[0]);
    assert |twice| == |once|;
    forall i | 0 <= i < |once|
      ensures twice[i] == once[i]
    {
      if IsSpace(once[i]) {
        assert once[i] == ' ';
      }
    }
  }

  /** Python's `str.splitlines()` (without `keepends`). */
  function SplitLines(s: string): (r: seq<string>)
    ensures forall k, i :: 0 <= k < |r| && 0 <= i < |r[k]| ==> !IsLineBoundary(r[k][i])
    decreases |s|
  {
    if |s| == 0 then []
    else
      var i := FirstBoundary(s, 0);
      if i == |s| then [s]
      else [s[..i]] + SplitLines(s[i + BreakWidth(s, i)..])
  }

  /** Index of the first line boundary at or after `from`, or `|s|`. */
  function FirstBoundary(s: string, from: nat): (i: nat)
    requires from <= |s|
    ensures from <= i <= |s|
    ensures forall j :: from <= j < i ==> !IsLineBoundary(s[j])
    ensures i < |s| ==> IsLineBoundary(s[i])
    decreases |s| - from
  {
    if from == |s| || IsLineBoundary(s[from]) then from else FirstBoundary(s, from + 1)
  }

  /** Characters taken by the line break at `i`: `\r\n` is one break. */
  function BreakWidth(s: string, i: nat): (w: nat)
    requires i < |s|
    ensures 1 <= w && i + w <= |s|
  {
    if s[i] == '\r' && i + 1 < |s| && s[i + 1] == '\n' then 2 else 1
  }

  /** The characters of `s` that are not line boundaries, in order. */
  function DropBoundaries(s: string): string
  {
    if |s| == 0 then []
    else (if IsLineBoundary(s[0]) then [] else [s[0]]) + DropBoundaries(s[1..])
  }

  /** Concatenation of a list of strings (`''.join`). */
  function Concat(parts: seq<string>): string
  {
    if |parts| == 0 then [] else Concat(parts[..|parts| - 1]) + parts[|parts| - 1]
  }

  lemma {:induction false} ConcatCons(a: string, parts: seq<string>)
    ensures Concat([a] + parts) == a + Concat(parts)
    decreases |parts|
  {
    if |parts| == 0 {
      assert [a] + parts == [a];
      assert Concat([a]) == Concat([]) + a;
    } else {
      var init := parts[..|parts| - 1];
      assert ([a] + parts)[..|parts|] == [a] + init;
      ConcatCons(a, init);
    }
  }

  lemma {:induction false} DropBoundariesAppend(a: string, b: string)
    ensures DropBoundaries(a + b) == DropBoundaries(a) + DropBoundaries(b)
  {
    if |a| > 0 {
      assert (a + b)[1..] == a[1..] + b;
      DropBoundariesAppend(a[1..], b);
    } else {
      assert a + b == b;
    }
  }

  lemma {:induction false} DropBoundariesClean(s: string)
    requires forall i :: 0 <= i < |s| ==> !IsLineBoundary(s[i])
    ensures DropBoundaries(s) == s
  {
    if |s| > 0 {
      DropBoundariesClean(s[1..]);
    }
  }

  lemma {:induction false} DropBoundariesOfBreak(s: string, i: nat)
    requires i < |s| && IsLineBoundary(s[i])
    ensures DropBoundaries(s[i..i + BreakWidth(s, i)]) == []
  {
    var piece := s[i..i + BreakWidth(s, i)];
    if BreakWidth(s, i) == 2 {
      assert piece == [s[i], s[i + 1]];
      assert piece[1..] == [s[i + 1]];
      assert piece[1..][1..] == [];
      assert !IsLineBoundary(s[i]) || DropBoundaries(piece) == DropBoundaries(piece[1..]);
    } else {
      assert piece == [s[i]];
      assert piece[1..] == [];
    }
  }

  /** Removing boundaries from a text whose first break is at `i`. */
  lemma {:induction false} DropBoundariesAtBreak(s: string, i: nat)
    requires i < |s| && IsLineBoundary(s[i])
    requires forall j :: 0 <= j < i ==> !IsLineBoundary(s[j])
    ensures DropBoundaries(s) == s[..i] + DropBoundaries(s[i + BreakWidth(s, i)..])
  {
    var w := BreakWidth(s, i);
    var line, brk, rest := s[..i], s[i..i + w], s[i + w..];
    assert s == line + (brk + rest);
    DropBoundariesAppend(line, brk + rest);
    DropBoundariesAppend(brk, rest);
    forall j | 0 <= j < |line|
      ensures !IsLineBoundary(line[j])
    {
      assert line[j] == s[j];
    }
    DropBoundariesClean(line);
    DropBoundariesOfBreak(s, i);
    assert DropBoundaries(brk + rest) == DropBoundaries(rest);
  }

  /** Splitting into lines loses exactly the line boundaries: the lines
      concatenated are the text with its boundary characters removed. */
  lemma {:induction false} SplitLinesKeepsContent(s: string)
    ensures Concat(SplitLines(s)) == DropBoundaries(s)
    decreases |s|
  {
    if |s| > 0 {
      var i := FirstBoundary(s, 0);
      if i == |s| {
        DropBoundariesClean(s);
        assert Concat([s]) == Concat([]) + s;
      } else {
        var rest := s[i + BreakWidth(s, i)..];
        assert SplitLines(s) == [s[..i]] + SplitLines(rest);
        SplitLinesKeepsContent(rest);
        ConcatCons(s[..i], SplitLines(rest));
        DropBoundariesAtBreak(s, i);
      }
    }
  }

  /** One line of text kept as its own segment: a leading space is added
      unless the line already starts with a plain space. */
  function PrefixLine(line: string): (r: string)
    ensures |r| > 0 && r[0] == ' '
    ensures r == line || r == [' '] + line
  {
    if |line| > 0 && line[0] == ' ' then line else [' '] + line
  }

  function Sum(xs: seq<nat>): nat
  {
    if |xs| == 0 then 0 else Sum(xs[..|xs| - 1]) + xs[|xs| - 1]
  }

  /** Running sums of a sequence of lengths (`np.cumsum`). */
  function CumSum(xs: seq<nat>): (r: seq<nat>)
    ensures |r| == |xs|
  {
    seq(|xs|, k requires 0 <= k < |xs| => Sum(xs[..k + 1]))
  }

  function Lengths(parts: seq<string>): (r: seq<nat>)
    ensures |r| == |parts|
    ensures forall k :: 0 <= k < |r| ==> r[k] == |parts[k]|
  {
    seq(|parts|, k requires 0 <= k < |parts| => |parts[k]|)
  }

  /** Text with its original line split kept: the normalised text and the
      character index at which each line ends. */
  datatype SplitText = SplitText(text: string, lineEnds: seq<nat>)

  /** The prefixed lines of a text, before whitespace replacement. */
  function PrefixedLines(text: string): (r: seq<string>)
    ensures |r| == |SplitLines(text)|
    ensures forall k :: 0 <= k < |r| ==> r[k] == PrefixLine(SplitLines(text)[k])
  {
    var lines := SplitLines(text);
    seq(|lines|, k requires 0 <= k < |lines| => PrefixLine(lines[k]))
  }

  function MapSpacesOnly(parts: seq<string>): (r: seq<string>)
    ensures |r| == |parts|
    ensures forall k :: 0 <= k < |r| ==> r[k] == SpacesOnly(parts[k])
  {
    seq(|parts|, k requires 0 <= k < |parts| => SpacesOnly(parts[k]))
  }

  /** Each line gets a leading space, the end index of every line is the
      running sum of the prefixed line lengths, and the lines are joined
      with their whitespace turned into spaces. */
  function NormaliseLines(text: string): SplitText
  {
    var lines := PrefixedLines(text);
    SplitText(Concat(MapSpacesOnly(lines)), CumSum(Lengths(lines)))
  }

  /** Part `k` sits between the previous boundary and its own. */
  ghost predicate PartAt(ends: seq<nat>, joined: string, parts: seq<string>, k: nat)
    requires k < |ends| == |parts|
  {
    var lo := if k == 0 then 0 else ends[k - 1];
    lo <= ends[k] <= |joined| && joined[lo..ends[k]] == parts[k]
  }

  /** The part boundaries inside a concatenation. */
  ghost predicate Delimits(ends: seq<nat>, joined: string, parts: seq<string>)
  {
    && |ends| == |parts|
    && (|parts| == 0 ==> joined == [])
    && (|parts| > 0 ==> ends[|parts| - 1] == |joined|)
    && forall k: nat :: k < |parts| ==> PartAt(ends, joined, parts, k)
  }

  lemma {:induction false} SliceOfAppend(a: string, b: string, lo: nat, hi: nat)
    requires lo <= hi <= |a|
    ensures (a + b)[lo..hi] == a[lo..hi]
  {
  }

  /** Appending one part keeps the earlier boundaries and adds its own. */
  lemma {:induction false} DelimitsSnoc(ends: seq<nat>, joined: string, parts: seq<string>, p: string)
    requires Delimits(ends, joined, parts)
    ensures Delimits(ends + [|joined| + |p|], joined + p, parts + [p])
  {
    var ends', joined', parts' := ends + [|joined| + |p|], joined + p, parts + [p];
    forall k: nat | k < |parts'|
      ensures PartAt(ends', joined', parts', k)
    {
      if k < |parts| {
        var lo := if k == 0 then 0 else ends[k - 1];
        assert PartAt(ends, joined, parts, k);
        assert ends'[k] == ends[k] && parts'[k] == parts[k];
        assert k > 0 ==> ends'[k - 1] == ends[k - 1];
        SliceOfAppend(joined, p, lo, ends[k]);
      } else {
        var lo := if k == 0 then 0 else ends'[k - 1];
        assert lo == |joined|;
        assert joined'[lo..ends'[k]] == p;
      }
    }
  }

  lemma {:induction false} CumSumSnoc(xs: seq<nat>)
    requires |xs| > 0
    ensures CumSum(xs) == CumSum(xs[..|xs| - 1]) + [Sum(xs)]
  {
    var n := |xs|;
    assert xs[..n] == xs;
    forall k | 0 <= k < n - 1
      ensures CumSum(xs)[k] == CumSum(xs[..n - 1])[k]
    {
      assert xs[..n - 1][..k + 1] == xs[..k + 1];
    }
  }

  lemma {:induction false} SumIsConcatLength(parts: seq<string>)
    ensures Sum(Lengths(parts)) == |Concat(parts)|
  {
    if |parts| > 0 {
      assert Lengths(parts)[..|parts| - 1] == Lengths(parts[..|parts| - 1]);
      SumIsConcatLength(parts[..|parts| - 1]);
    }
  }

  /** The running sums of the part lengths delimit the parts inside their
      concatenation. */
  lemma {:induction false} CumSumDelimits(parts: seq<string>)
    ensures Delimits(CumSum(Lengths(parts)), Concat(parts), parts)
  {
    if |parts| > 0 {
      var n := |parts|;
      var init := parts[..n - 1];
      CumSumDelimits(init);
      assert Lengths(parts)[..n - 1] == Lengths(init);
      CumSumSnoc(Lengths(parts));
      SumIsConcatLength(init);
      assert Sum(Lengths(parts)) == Sum(Lengths(init)) + |parts[n - 1]|;
      DelimitsSnoc(CumSum(Lengths(init)), Concat(init), init, parts[n - 1]);
      assert init + [parts[n - 1]] == parts;
    }
  }

  /** The kept-split text is whitespace-normalised, the last line end is its
      length, and the recorded ends cut it back into its normalised lines. */
  lemma {:induction false} NormaliseLinesSplitsBack(text: string)
    ensures Normalised(NormaliseLines(text).text)
    ensures Delimits(NormaliseLines(text).lineEnds, NormaliseLines(text).text, MapSpacesOnly(PrefixedLines(text)))
  {
    var lines := PrefixedLines(text);
    var spaced := MapSpacesOnly(lines);
    CumSumDelimits(spaced);
    assert Lengths(spaced) == Lengths(lines);
    NormalisedConcat(spaced);
  }

  lemma {:induction false} NormalisedConcat(parts: seq<string>)
    requires forall k :: 0 <= k < |parts| ==> Normalised(parts[k])
    ensures Normalised(Concat(parts))
  {
    if |parts| > 0 {
      NormalisedConcat(parts[..|parts| - 1]);
    }
  }

  /** The text branch of `align`: with `original_split` and a `'\n'` in
      the text, each line is kept as a segment and its end recorded;
      otherwise the text is normalised as one piece and nothing is split.
      Either way the text handed to the tokenizer holds no whitespace other
      than spaces. */
  function PrepareText(text: string, originalSplit: bool): (r: SplitText)
    ensures Normalised(r.text)
    ensures originalSplit && '\n' in text ==>
      Delimits(r.lineEnds, r.text, MapSpacesOnly(PrefixedLines(text)))
    ensures !(originalSplit && '\n' in text) ==>
      && r.lineEnds == []
      && |r.text| > 0 && r.text[0] == ' '
      && '\n' !in r.text
      && r.text == NormalisePlain(r.text)
  {
    if originalSplit && '\n' in text then
      NormaliseLinesSplitsBack(text);
      NormaliseLines(text)
    else
      var plain := NormalisePlain(text);
      NormalisePlainIdempotent(text);
      NormalisedHasNoBreak(plain);
      SplitText(plain, [])
  }

  lemma NormalisedHasNoBreak(s: string)
    requires Normalised(s)
    ensures '\n' !in s
  {
    forall i | 0 <= i < |s|
      ensures s[i] != '\n'
    {
      if s[i] == '\n' {
        assert IsSpace(s[i]);
      }
    }
  }

  /** Drops end-of-text and every other special token (ids at or above `eot`). */
  function DropSpecial(tokens: seq<int>, eot: int): (r: seq<int>)
    ensures forall k :: 0 <= k < |r| ==> r[k] < eot
    ensures forall t :: t in r <==> t in tokens && t < eot
    ensures |r| <= |tokens|
  {
    if |tokens| == 0 then []
    else (if tokens[0] < eot then [tokens[0]] else []) + DropSpecial(tokens[1..], eot)
  }
  /** `DropSpecial` is the order-preserving filter: it keeps a single token
      exactly when it is below `eot`, and it distributes over
      concatenation. */
  lemma DropSpecialSingle(t: int, eot: int)
    ensures DropSpecial([], eot) == []
    ensures DropSpecial([t], eot) == (if t < eot then [t] else [])
  {
    assert [t][1..] == [];
  }

  lemma {:induction false} DropSpecialAppend(a: seq<int>, b: seq<int>, eot: int)
    ensures DropSpecial(a + b, eot) == DropSpecial(a, eot) + DropSpecial(b, eot)
  {
    if |a| > 0 {
      var head := if a[0] < eot then [a[0]] else [];
      assert (a + b)[0] == a[0] && (a + b)[1..] == a[1..] + b;
      assert DropSpecial(a + b, eot) == head + DropSpecial(a[1..] + b, eot);
      DropSpecialAppend(a[1..], b, eot);
      ConcatAssocInt(head, DropSpecial(a[1..], eot), DropSpecial(b, eot));
    } else {
      assert a + b == b;
    }
  }

  lemma ConcatAssocInt(x: seq<int>, y: seq<int>, z: seq<int>)
    ensures x + (y + z) == (x + y) + z
  {
  }



  /** A token list without special tokens passes through unchanged, so the
      filter is idempotent. */
  lemma {:induction false} DropSpecialKeepsText(tokens: seq<int>, eot: int)
    requires forall k :: 0 <= k < |tokens| ==> tokens[k] < eot
    ensures DropSpecial(tokens, eot) == tokens
  {
    if |tokens| > 0 {
      DropSpecialKeepsText(tokens[1..], eot);
    }
  }
}

/** The argument checks `refine` performs before any audio work, and the
    bisection resolution it derives from `precision`. */
module RefineConfig {
  import opened Common

  datatype RefineError =
    | InvalidSteps(letters: string)   // ValueError: letters other than 's' and 'e'
    | NoWordTimestamps                // NotImplementedError: the result has no words
    | EmptyWordList                   // IndexError: no word to take the first limit from

  predicate IsStepLetter(c: char) { c == 's' || c == 'e' }

  /** `steps.replace('s', '').replace('e', '')`: the offending letters, in order. */
  function InvalidLetters(steps: string): (r: string)
    ensures |r| <= |steps|
    ensures forall c :: c in r <==> c in steps && !IsStepLetter(c)
  {
    if |steps| == 0 then ""
    else if IsStepLetter(steps[0]) then InvalidLetters(steps[1..])
    else [steps[0]] + InvalidLetters(steps[1..])
  }
  /** `InvalidLetters` is the order-preserving filter: it keeps a single
      letter exactly when it is not a step letter, and it distributes over
      concatenation. */
  lemma {:induction false} InvalidLettersFilters(a: string, b: string)
    ensures InvalidLetters("") == ""
    ensures forall c :: InvalidLetters([c]) == (if IsStepLetter(c) then "" else [c])
    ensures InvalidLetters(a + b) == InvalidLetters(a) + InvalidLetters(b)
  {
    forall c ensures InvalidLetters([c]) == (if IsStepLetter(c) then "" else [c]) {
      assert [c][1..] == "";
    }
    if |a| > 0 {
      assert (a + b)[0] == a[0] && (a + b)[1..] == a[1..] + b;
      InvalidLettersFilters(a[1..], b);
    } else {
      assert a + b == b;
    }
  }


  /** The steps `refine` runs: an empty string means both, start first; a
      letter other than 's'/'e' is rejected before the word check. */
  function ValidateSteps(steps: string, hasWords: bool): (r: Result<string, RefineError>)
    ensures r.Ok? <==> hasWords && forall i :: 0 <= i < |steps| ==> IsStepLetter(steps[i])
    ensures r.Ok? ==> |r.value| > 0 && (forall i :: 0 <= i < |r.value| ==> IsStepLetter(r.value[i]))
    ensures r.Ok? ==> r.value == (if |steps| == 0 then "se" else steps)
    ensures (exists i :: 0 <= i < |steps| && !IsStepLetter(steps[i])) ==> r.Err? && r.error.InvalidSteps? && |r.error.letters| > 0
    ensures r.Err? && r.error.InvalidSteps? ==> forall c :: c in r.error.letters <==> c in steps && !IsStepLetter(c)
  {
    var s := if |steps| == 0 then "se" else steps;
    var bad := InvalidLetters(s);
    if |bad| > 0 then
      assert bad[0] in s;
      Err(InvalidSteps(bad))
    else
      assert forall i :: 0 <= i < |s| ==> IsStepLetter(s[i]) by {
        forall i | 0 <= i < |s| ensures IsStepLetter(s[i]) {
          assert s[i] in s;
        }
      }
      if !hasWords then Err(NoWordTimestamps)
      else Ok(s)
  }

  /** `max(round(precision * FRAMES_PER_SECOND), 2)` with `precision`
      defaulting to 0.1 s: the smallest half-width, in frames, the search
      keeps narrowing. */
  function FramePrecision(precision: Option<real>): (r: int)
    ensures r >= 2
    ensures var p := if precision.None? then 0.1 else precision.value;
      (r > 2 ==> IsRoundHalfEven(p * 100.0, r)) && (r == 2 <==> p * 100.0 <= 2.5)
  {
    var p := if precision.None? then 0.1 else precision.value;
    var f := RoundReal(p * 100.0);
    if f <= 2 then
      assert p * 100.0 <= 2.5 by {
        if p * 100.0 > 2.5 {
          RoundRealMonotone(3.0, p * 100.0);
          RoundRealOfInt(3);
        }
      }
      2
    else
      assert p * 100.0 > 2.5;
      f
  }

  /** Without a precision the search stops at ten frames, a tenth of a second. */
  lemma FramePrecisionDefault()
    ensures FramePrecision(None) == 10
  {
    RoundRealOfInt(10);
    assert 0.1 * 100.0 == 10 as real;
  }

  /** A coarser precision never gives a finer search. */
  lemma FramePrecisionMonotone(p: real, q: real)
    requires p <= q
    ensures FramePrecision(Some(p)) <= FramePrecision(Some(q))
  {
    RoundRealMonotone(p * 100.0, q * 100.0);
  }
}

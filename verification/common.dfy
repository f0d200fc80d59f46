/** Shared datatypes and the rounding rules the aligner relies on.

    Python's `round(x)` and numpy's `ndarray.round()` both round to the
    nearest integer and break ties towards the even neighbour; the model works
    with exact reals, so binary floating-point representation error is not
    part of it. */
module Common {

  datatype Option<T> = None | Some(value: T)

  datatype Result<T, E> = Ok(value: T) | Err(error: E)

  /** Audio samples per second (whisper.audio.SAMPLE_RATE). */
  const SAMPLE_RATE: int := 16000
  /** Mel frames per second (whisper.audio.FRAMES_PER_SECOND). */
  const FRAMES_PER_SECOND: int := 100
  /** Seconds of audio in one model window (whisper.audio.CHUNK_LENGTH). */
  const CHUNK_LENGTH: int := 30
  /** Samples in one model window (whisper.audio.N_SAMPLES). */
  const N_SAMPLES: int := 480000

  function MaxR(a: real, b: real): real { if a < b then b else a }
  function MinR(a: real, b: real): real { if a < b then a else b }
  function MinI(a: int, b: int): int { if a < b then a else b }
  function MaxI(a: int, b: int): int { if a < b then b else a }

  /** `r` is a nearest integer to `x`, and an exact tie goes to the even one. */
  ghost predicate IsRoundHalfEven(x: real, r: int)
  {
    && -0.5 <= x - r as real <= 0.5
    && ((x - r as real == 0.5 || x - r as real == -0.5) ==> r % 2 == 0)
  }

  /** Python's `round(x)` on a number, as exact arithmetic. */
  function RoundReal(x: real): (r: int)
    ensures IsRoundHalfEven(x, r)
  {
    var f := x.Floor;
    var frac := x - f as real;
    if frac < 0.5 then f
    else if frac > 0.5 then f + 1
    else if f % 2 == 0 then f
    else f + 1
  }

  /** Python's `round(x, 3)`: the nearest multiple of one thousandth. */
  function RoundTo3(x: real): (r: real)
    ensures -0.0005 <= x - r <= 0.0005
  {
    RoundReal(x * 1000.0) as real / 1000.0
  }

  /** Python's `round(w / 2)` for an integer `w`, as used for interval
      half-widths: `w/2` is exact, so only odd `w` ties. */
  function HalfRound(w: int): (r: int)
    ensures -1 <= 2 * r - w <= 1
    ensures w % 2 == 1 ==> r % 2 == 0
  {
    if w % 2 == 0 then w / 2
    else if (w / 2) % 2 == 0 then w / 2
    else w / 2 + 1
  }

  /** Round-half-even has exactly one answer. */
  lemma RoundHalfEvenUnique(x: real, r1: int, r2: int)
    requires IsRoundHalfEven(x, r1) && IsRoundHalfEven(x, r2)
    ensures r1 == r2
  {
  }

  /** HalfRound agrees with the general rounding rule applied to `w / 2`. */
  lemma HalfRoundIsRound(w: int)
    ensures HalfRound(w) == RoundReal(w as real / 2.0)
  {
    var h := HalfRound(w);
    assert 2 * h - w <= 1 && 2 * h - w >= -1;
    assert IsRoundHalfEven(w as real / 2.0, h) by {
      assert w as real / 2.0 - h as real == (w - 2 * h) as real / 2.0;
      if w % 2 == 1 {
        assert h % 2 == 0;
      } else {
        assert w - 2 * h == 0;
      }
    }
    RoundHalfEvenUnique(w as real / 2.0, h, RoundReal(w as real / 2.0));
  }

  /** Rounding never reverses an order. */
  lemma RoundRealMonotone(x: real, y: real)
    requires x <= y
    ensures RoundReal(x) <= RoundReal(y)
  {
    var a, b := RoundReal(x), RoundReal(y);
    if a > b {
      assert false;
    }
  }

  /** Rounding an integer gives it back. */
  lemma RoundRealOfInt(n: int)
    ensures RoundReal(n as real) == n
  {
    assert IsRoundHalfEven(n as real, n);
    RoundHalfEvenUnique(n as real, n, RoundReal(n as real));
  }

  /** Rounding to thousandths never reverses an order. */
  lemma RoundTo3Monotone(x: real, y: real)
    requires x <= y
    ensures RoundTo3(x) <= RoundTo3(y)
  {
    RoundRealMonotone(x * 1000.0, y * 1000.0);
  }

  /** Python's `len(a[i:j])` for a list of length `n`. */
  function SliceLen(n: nat, i: int, j: int): (r: nat)
    ensures r <= n
    ensures 0 <= i <= j <= n ==> r == j - i
  {
    var lo := if i < 0 then MaxI(n + i, 0) else MinI(i, n);
    var hi := if j < 0 then MaxI(n + j, 0) else MinI(j, n);
    if hi > lo then hi - lo else 0
  }
}

/** The token-matching automaton `locate` runs inside one confirmation
    window. Each decoding step is summarised by what the decoder saw: its
    best token, its best token other than end-of-text, the probability of
    the next target token, and whether the decoded text now ends with the
    target string. Replaying tokens into the decoder is not modelled; only
    what a mismatch does to the control state is. */
module LocateDecode {
  import opened Common

  datatype DecodeConfig = DecodeConfig(
    text: seq<int>,        // the target's tokens
    eot: int,              // the end-of-text token
    threshold: real,       // probability_threshold
    maxEots: int,          // eots
    maxTokens: int,        // max_token_per_seg
    exactToken: bool)      // exact_token

  datatype StepObs = StepObs(best: int, bestNonEot: int, targetProb: real, stringMatch: bool)

  datatype DecodeState = DecodeState(
    cursor: nat,           // target_token_idx
    replace: seq<int>,     // replace_found_tokens
    eots: nat,             // curr_eots
    foundTarget: bool,
    running: bool,         // not_end
    predictions: seq<int>,
    found: nat,            // matches counted so far, across windows
    cacheClears: nat)      // kv-cache resets after a mismatch

  function InitDecode(found: nat): (r: DecodeState)
    ensures r.running && !r.foundTarget && r.cursor == 0 && r.replace == [] && r.predictions == [] && r.found == found
  {
    DecodeState(0, [], 0, false, true, [], found, 0)
  }

  /** How an accepted target token is recorded for a later replay. */
  datatype RecordRule = Intended | AsWritten

  /** The token recorded when the decoder's choice is replaced by a target
      token, if any. Once recording has started every replacement is
      recorded; it starts when the decoder's choice differs from the target.
      As written, the in-place write of the target token into the best-token
      tensor also changes the non-end-of-text choice whenever the two are
      the same tensor, so only an end-of-text best token can start a
      recording, and the target token is recorded instead of the choice. */
  function Recorded(rule: RecordRule, buffer: seq<int>, obs: StepObs, target: int, eot: int): (r: Option<int>)
    ensures rule == Intended ==> (r.Some? <==> |buffer| > 0 || obs.bestNonEot != target)
    ensures rule == Intended && r.Some? ==> r.value == obs.bestNonEot
    ensures rule == AsWritten && obs.best == eot ==>
      (r.Some? <==> |buffer| > 0 || obs.bestNonEot != target) && (r.Some? ==> r.value == obs.bestNonEot)
    ensures rule == AsWritten && obs.best != eot ==> (r.Some? <==> |buffer| > 0) && (r.Some? ==> r.value == target)
  {
    var choice := if rule == AsWritten && obs.best != eot then target else obs.bestNonEot;
    if |buffer| > 0 || choice != target then Some(choice) else None
  }

  /** Whether a step keeps the target: its probability is high enough, the
      decoder picked it anyway, or the decoded text matches. */
  predicate Accepts(cfg: DecodeConfig, st: DecodeState, obs: StepObs)
    requires st.cursor < |cfg.text|
  {
    obs.targetProb >= cfg.threshold || obs.bestNonEot == cfg.text[st.cursor] || (!cfg.exactToken && obs.stringMatch)
  }

  /** One iteration of the decode loop. */
  function StepWith(rule: RecordRule, cfg: DecodeConfig, st: DecodeState, obs: StepObs): (r: DecodeState)
    requires st.foundTarget || st.cursor < |cfg.text|
  {
    var accepted := !st.foundTarget && Accepts(cfg, st, obs);
    var next :=
      if accepted then
        if !cfg.exactToken && obs.stringMatch then
          st.(foundTarget := true, found := st.found + 1, eots := 0, predictions := st.predictions + [obs.bestNonEot])
        else
          var target := cfg.text[st.cursor];
          var rec := Recorded(rule, st.replace, obs, target, cfg.eot);
          var done := st.cursor + 1 == |cfg.text|;
          st.(cursor := st.cursor + 1,
              replace := if rec.Some? then st.replace + [rec.value] else st.replace,
              foundTarget := done,
              found := if done then st.found + 1 else st.found,
              eots := 0,
              predictions := st.predictions + [target])
      else
        var reset :=
          if st.foundTarget then st
          else st.(cursor := 0, replace := [], cacheClears := if |st.replace| > 0 then st.cacheClears + 1 else st.cacheClears);
        if obs.best == cfg.eot then
          if reset.eots >= cfg.maxEots || reset.foundTarget then
            reset.(running := false, predictions := reset.predictions + [cfg.eot])
          else
            reset.(eots := reset.eots + 1, predictions := reset.predictions + [obs.bestNonEot])
        else
          reset.(eots := 0, predictions := reset.predictions + [obs.best]);
    next.(running := next.running && |next.predictions| <= cfg.maxTokens)
  }

  function Step(cfg: DecodeConfig, st: DecodeState, obs: StepObs): DecodeState
    requires st.foundTarget || st.cursor < |cfg.text|
  {
    StepWith(Intended, cfg, st, obs)
  }

  /** The decoder picks token 5 where the target's first token 7 is likely
      enough to be kept: as written nothing is recorded, so a mismatch later
      in the target cannot restore the decoder's own pick. */
  lemma AsWrittenMissesReplacement()
    ensures var cfg := DecodeConfig([7, 8], 100, 0.5, 2, 224, true);
      var obs := StepObs(5, 5, 0.9, false);
      && StepWith(AsWritten, cfg, InitDecode(0), obs).replace == []
      && StepWith(Intended, cfg, InitDecode(0), obs).replace == [5]
  {
  }

  /** The intended rule: each accepted target token that replaced a pick
      different from it is recorded with the decoder's own pick, and once
      recording has started every later pick is recorded, so the buffer
      restores exactly the decoder's choices. */
  lemma StepKeepsReplacedChoices(cfg: DecodeConfig, st: DecodeState, obs: StepObs)
    requires !st.foundTarget && st.cursor < |cfg.text|
    requires Accepts(cfg, st, obs) && !(!cfg.exactToken && obs.stringMatch)
    ensures var r := Step(cfg, st, obs);
      && (|st.replace| > 0 || obs.bestNonEot != cfg.text[st.cursor] ==> r.replace == st.replace + [obs.bestNonEot])
      && (|st.replace| == 0 && obs.bestNonEot == cfg.text[st.cursor] ==> r.replace == [])
  {
  }

  /** The recording rule touches only the replay buffer and the cache
      resets: the cursor, the match, the end-of-text count and the
      predictions are the same under both rules. */
  lemma RecordRuleOnlyAffectsReplay(cfg: DecodeConfig, st: DecodeState, obs: StepObs)
    requires st.foundTarget || st.cursor < |cfg.text|
    ensures var a := StepWith(AsWritten, cfg, st, obs); var b := StepWith(Intended, cfg, st, obs);
      && a.cursor == b.cursor && a.foundTarget == b.foundTarget && a.found == b.found
      && a.eots == b.eots && a.running == b.running && a.predictions == b.predictions
  {
  }

  /** The cursor never passes the target's end; reaching it means found;
      a decode still running has at most `max_token_per_seg` predictions. */
  ghost predicate Valid(cfg: DecodeConfig, st: DecodeState)
  {
    && st.cursor <= |cfg.text|
    && (st.foundTarget || st.cursor < |cfg.text|)
    && (st.running ==> |st.predictions| <= MaxI(cfg.maxTokens, 0))
    && |st.predictions| <= MaxI(cfg.maxTokens, 0) + 1
  }

  /** One step: the invariant holds; the match is counted once, when the
      cursor reaches the end of the target or the text matches; a rejected
      step before the match resets the cursor and empties the buffer
      (resetting the cache when it held tokens); a step adds exactly one
      prediction; and the loop stops only on the prediction cap or on an
      end-of-text token once enough were seen or the target was found. */
  lemma StepSpec(cfg: DecodeConfig, st: DecodeState, obs: StepObs)
    requires Valid(cfg, st) && st.running
    ensures var r := Step(cfg, st, obs);
      && Valid(cfg, r)
      && |r.predictions| == |st.predictions| + 1
      && r.predictions[..|st.predictions|] == st.predictions
      && (st.foundTarget ==> r.foundTarget && r.found == st.found && r.cursor == st.cursor)
      && (!st.foundTarget && r.foundTarget ==>
            r.found == st.found + 1 && (r.cursor == |cfg.text| || (!cfg.exactToken && obs.stringMatch)))
      && (!st.foundTarget && !r.foundTarget ==> r.found == st.found)
      && (!st.foundTarget && !Accepts(cfg, st, obs) ==>
            r.cursor == 0 && r.replace == [] && !r.foundTarget
            && r.cacheClears == st.cacheClears + (if |st.replace| > 0 then 1 else 0))
      && (!st.foundTarget && Accepts(cfg, st, obs) ==> r.eots == 0 && (r.cursor == st.cursor + 1 || r.foundTarget))
      && (!st.foundTarget && !cfg.exactToken && obs.stringMatch ==> r.foundTarget && r.cursor == st.cursor)
      && (!r.running ==>
            || |r.predictions| > cfg.maxTokens
            || (obs.best == cfg.eot && (st.eots >= cfg.maxEots || st.foundTarget)))
      && ((obs.best == cfg.eot && (st.foundTarget || !Accepts(cfg, st, obs)) && (st.eots >= cfg.maxEots || st.foundTarget))
            ==> !r.running)
  {
  }

  /** The decode loop, fed one observation per iteration while it runs. */
  function Run(cfg: DecodeConfig, st: DecodeState, obs: seq<StepObs>): (r: DecodeState)
    requires Valid(cfg, st)
    decreases |obs|
  {
    if !st.running || |obs| == 0 then st
    else
      StepSpec(cfg, st, obs[0]);
      Run(cfg, Step(cfg, st, obs[0]), obs[1..])
  }

  /** Over a whole window: the invariant holds, the match is counted at most
      once, the predictions only grow, and the loop has stopped once it has
      seen more observations than the prediction cap allows. */
  lemma {:induction false} RunSpec(cfg: DecodeConfig, st: DecodeState, obs: seq<StepObs>)
    requires Valid(cfg, st)
    ensures var r := Run(cfg, st, obs);
      && Valid(cfg, r)
      && r.found == st.found + (if r.foundTarget && !st.foundTarget then 1 else 0)
      && (st.foundTarget ==> r.foundTarget)
      && |st.predictions| <= |r.predictions|
      && r.predictions[..|st.predictions|] == st.predictions
      && (st.running && |obs| > MaxI(cfg.maxTokens, 0) - |st.predictions| ==> !r.running)
    decreases |obs|
  {
    if st.running && |obs| > 0 {
      StepSpec(cfg, st, obs[0]);
      var next := Step(cfg, st, obs[0]);
      RunSpec(cfg, next, obs[1..]);
      var r := Run(cfg, next, obs[1..]);
      assert r.predictions[..|next.predictions|] == next.predictions;
      assert r.predictions[..|st.predictions|] == next.predictions[..|st.predictions|];
    }
  }

  /** The decoder picks every target token in turn: the target is found
      after exactly its length in steps and the predictions are the target. */
  lemma {:induction false} RunFindsExactPicks(cfg: DecodeConfig, st: DecodeState, obs: seq<StepObs>)
    requires Valid(cfg, st) && st.running && !st.foundTarget
    requires st.cursor + |obs| == |cfg.text|
    requires |st.predictions| + |obs| <= cfg.maxTokens
    requires forall k :: 0 <= k < |obs| ==>
      obs[k].best == obs[k].bestNonEot == cfg.text[st.cursor + k] != cfg.eot && !obs[k].stringMatch
    ensures var r := Run(cfg, st, obs);
      r.foundTarget && r.found == st.found + 1 && r.predictions == st.predictions + cfg.text[st.cursor..]
    decreases |obs|
  {
    var next := Step(cfg, st, obs[0]);
    assert Accepts(cfg, st, obs[0]);
    StepSpec(cfg, st, obs[0]);
    if |obs| == 1 {
      assert next.foundTarget;
      assert cfg.text[st.cursor..] == [cfg.text[st.cursor]];
    } else {
      assert !next.foundTarget && next.running && next.cursor == st.cursor + 1;
      forall k | 0 <= k < |obs[1..]|
        ensures obs[1..][k].best == obs[1..][k].bestNonEot == cfg.text[next.cursor + k] != cfg.eot && !obs[1..][k].stringMatch
      {
        assert obs[1..][k] == obs[k + 1];
      }
      RunFindsExactPicks(cfg, next, obs[1..]);
      assert cfg.text[st.cursor..] == [cfg.text[st.cursor]] + cfg.text[next.cursor..];
    }
  }
}

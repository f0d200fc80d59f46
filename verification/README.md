# stable-ts alignment core in Dafny

This project models the control logic of the three audio/text operations in
`stable_whisper/alignment.py` of stable-ts:

- **`align`** matches a known text to audio. It resolves the per-pass token
  budget (`token_step`) and normalises whitespace (optionally keeping the
  original line split). It then repeatedly takes as many words as the budget
  allows and times them in a 30 s window. Unresolved trailing words go back
  on the queue, and the sample cursor moves to the last kept word's end.
  Words left at the end are filled in at the audio's duration. The flat
  result is cut back into the original segments by character counts.
- **`refine`** sharpens word starts and ends. It checks the `steps` argument,
  derives the bisection resolution from `precision`, and computes each
  word's start and end limits (neighbours, the 14.5 s window, optional
  caps). It cuts the words into batches: a word opens a new batch when its
  end limit lies more than 30 s after the batch's first start limit, or when
  the batch already holds `n_text_ctx - 6` words (a batch's first word is
  never tested, so one long word can make a batch longer than 30 s). Per word, it bisects the range in which masking the audio leaves
  the model's confidence intact, and writes the found timestamp back
  (`update_ts`).
- **`locate`** finds where a given text is spoken. It checks the duration
  window and sets the searched range. For each 30 s window it either
  reports the encoder's estimate unconfirmed (mode 2), or confirms it by
  forcing the decoder through the target tokens around the estimate
  (modes 0 and 1). It then moves the sample cursor and stops at the end of
  the audio or when `count` matches are found.

Everything the neural model computes comes in as a parameter:

- the word timer used by `align` (`AlignWindow.Extractor`), which returns the timed words it made of the words it was given;
- the probabilities and token ranks `refine` reads per probe round (`RefinePass.ValidProber`);
- the estimates and per-step decoder choices `locate` reads (`LocateSearch.WindowObs`, `LocateDecode.StepObs`).

Times are exact reals, and Python's `round` is modelled exactly as round-half-to-even (`Common.RoundReal`). The modules follow the source's structure:

- `Common`: rounding and the Whisper constants.
- `AlignText`, `AlignWindow`, `AlignSplit`: `align`.
- `RefineConfig`, `RefineClamps`, `RefineSearch`, `RefinePass`: `refine`.
- `LocateWindow`, `LocateDecode`, `LocateSearch`: `locate`.

## Model

| member | source | states |
|---|---|---|
| AlignText.TokenStep | stable_whisper/alignment.py:162-166 | A budget below 1 selects `n_text_ctx - 6`; a budget above that is the ValueError with both numbers; any other budget is kept. |
| AlignText.TokenStepResolved | stable_whisper/alignment.py:162-166 | A resolved budget is at most `n_text_ctx - 6` and at least 1 when the context allows it, and resolving it again gives the same budget. |
| AlignText.PrepareText | stable_whisper/alignment.py:176-184 | With `original_split` and a `'\n'` in the text, the recorded line ends cut the joined text into the prefixed, normalised lines; otherwise there are no line ends and the text is one normalised piece starting with a space. Either way the text has no whitespace but spaces. |
| AlignText.NormalisePlain | stable_whisper/alignment.py:181-184 | Every whitespace character becomes a space and the text is shifted by exactly the one added leading space unless it already starts with whitespace; the result starts with a space and has no other whitespace. |
| AlignText.NormalisePlainIdempotent | stable_whisper/alignment.py:181-184 | Normalising already normalised text changes nothing. |
| AlignText.SplitLinesKeepsContent | stable_whisper/alignment.py:178 | `splitlines` loses exactly the line-boundary characters: the lines joined equal the text with its boundaries removed. |
| AlignText.NormaliseLinesSplitsBack | stable_whisper/alignment.py:177-180 | With the split kept, the joined text is whitespace-normalised and the cumulative line lengths cut it back into exactly the prefixed, normalised lines. |
| AlignText.DropSpecial | stable_whisper/alignment.py:190 | Only tokens below end-of-text remain, and every such token of the input remains. |
| AlignText.DropSpecialSingle | stable_whisper/alignment.py:190 | A single token is kept exactly when it is below end-of-text. |
| AlignText.DropSpecialAppend | stable_whisper/alignment.py:190 | Filtering a concatenation is the concatenation of the filtered parts, so the kept tokens stay in their order. |
| AlignText.DropSpecialKeepsText | stable_whisper/alignment.py:190 | Text tokens pass through the filter unchanged. |
| AlignWindow.GetCurrWords | stable_whisper/alignment.py:207-218 | The taken words and the rest rebuild the queue; at least one word is taken; more than one only within the budget; the next word would exceed it. |
| AlignWindow.GetCurrWordsUnique | stable_whisper/alignment.py:207-218 | Those four properties determine the split: any split with them is the one `get_curr_words` returns. |
| AlignWindow.RequeueProperties | stable_whisper/alignment.py:258-270 | The kept and re-queued words rebuild the window's words. All trailing zero-length words go back. When words remain queued (or some were zero-length), exactly one resolved word goes back with them. Otherwise nothing goes back. |
| AlignWindow.WindowSamples | stable_whisper/alignment.py:234-236 | The window holds at most 30 s of samples, and at least one sample that lies inside the audio when the cursor does. |
| AlignWindow.NextSeek | stable_whisper/alignment.py:272-276 | With kept words the cursor is the last kept end in samples, rounded; with none it moves past the window. |
| AlignWindow.NextSeekInWindow | stable_whisper/alignment.py:272-276 | When the last kept word ends inside the window, the cursor neither moves back nor passes the window. |
| AlignWindow.Window | stable_whisper/alignment.py:237-270 | The kept words and the words put back are exactly the timer's words, in order; the words not taken are the rest of the queue. |
| AlignWindow.AlignStepSplitsTimed | stable_whisper/alignment.py:231-280 | One window only appends to the result; the result's words followed by the queue are the old result's words, the timer's words and the words not taken; the finished-token count stays the token count of the result. |
| AlignWindow.AlignStepConserves | stable_whisper/alignment.py:231-280 | When the timer returns the words it was given, the result's words followed by the queue are the same words as before; when it only regroups them, the same token ids in the same order. |
| AlignWindow.AlignLoop | stable_whisper/alignment.py:231-280 | The whole loop only appends, keeps the token count, does nothing once the queue is empty or the audio is used up, and conserves the words in order for a timer that keeps them (the token ids for one that only regroups them). |
| AlignWindow.FillLeftover | stable_whisper/alignment.py:293-300 | Every leftover word is kept in order, with zero length and probability at the audio's duration rounded to milliseconds. |
| AlignWindow.AlignedWordsConserve | stable_whisper/alignment.py:231-300 | For a timer that keeps the words, without `remove_instant_words` the result holds every input word in order, and with it a prefix of them; for a timer that only regroups them, the same holds of the token ids. |
| AlignWindow.AlignProgressCountsResolvedTokens | stable_whisper/alignment.py:204-205 | The progress counter equals the tokens of the aligned words and, for a timer that loses no token, never exceeds the total. |
| AlignSplit.WordsToReach | stable_whisper/alignment.py:307-308 | The split index is the first word count whose characters reach the bound; none exists exactly when the bound is never reached, which is the IndexError. |
| AlignSplit.SplitIndices | stable_whisper/alignment.py:306-308 | One index per bound, each the first count to reach it; an error exactly when some bound is unreachable. |
| AlignSplit.SegmentsPartition | stable_whisper/alignment.py:309 | With ordered indices, segment k is the slice between consecutive indices and the segments together are the words up to the last index. |
| AlignSplit.SplitIndicesOrdered | stable_whisper/alignment.py:306-308 | Ordered character bounds give ordered word indices between 1 and the word count. |
| AlignSplit.SplitByChars | stable_whisper/alignment.py:306-311 | No bounds gives one segment with all words; otherwise one segment per bound or the index error. |
| AlignSplit.SplitByCharsPartition | stable_whisper/alignment.py:306-311 | The segments are consecutive slices of the aligned words and together are all words up to the one reaching the last bound. |
| AlignSplit.Align | stable_whisper/alignment.py:162-311 | The budget error propagates. An empty alignment returns nothing. No kept split gives one segment of all aligned words. A split fails exactly when a bound is unreachable, and otherwise returns the aligned words cut at the bounds. |
| AlignSplit.AlignKeepsEveryWord | stable_whisper/alignment.py:293-311 | Without instant-word removal and split, `align` returns one segment holding every input word in order for a timer that keeps the words, and every input token in order for one that only regroups them. |
| RefineConfig.InvalidLetters | stable_whisper/alignment.py:424 | The leftover letters are exactly the step letters other than `s` and `e`. |
| RefineConfig.InvalidLettersFilters | stable_whisper/alignment.py:424-425 | The removal keeps a single letter exactly when it is not `s` or `e` and distributes over concatenation, so the leftover letters keep their order. |
| RefineConfig.ValidateSteps | stable_whisper/alignment.py:420-427 | Accepted exactly when the result has words and every letter is `s` or `e`; empty steps mean `se`; any other letter is the ValueError naming them, raised before the word check. |
| RefineConfig.FramePrecision | stable_whisper/alignment.py:441 | At least 2 frames; above 2 it is precision times 100 rounded half to even; exactly 2 when that product is at most 2.5. |
| RefineConfig.FramePrecisionDefault | stable_whisper/alignment.py:422-441 | The default precision of 0.1 s gives 10 frames. |
| RefineConfig.FramePrecisionMonotone | stable_whisper/alignment.py:441 | A coarser precision never gives fewer frames. |
| RefineClamps.StartBound | stable_whisper/alignment.py:457-464 | The start limit is at least 0 and each given cap below the word's start, and, for every word but the first, at least the previous word's end and the word's end less 14.5 s. |
| RefineClamps.EndBound | stable_whisper/alignment.py:465-472 | The end limit is at most the duration and each given cap above the word's end, and, for every word but the last, at most the next word's start and the word's start plus 14.5 s. |
| RefineClamps.BoundsAreTight | stable_whisper/alignment.py:457-472 | Each limit equals one of the limits it has to respect. |
| RefineClamps.CapsOnlyTighten | stable_whisper/alignment.py:457-472 | Giving caps only narrows the limits. |
| RefineClamps.BoundsBracketWord | stable_whisper/alignment.py:457-472 | For ordered words within the audio and non-negative caps, the limits enclose the word. |
| RefineClamps.SegMask | stable_whisper/alignment.py:452-456 | Mask 1 exactly for a segment's first word; 2 exactly for the last word of a segment of two or more. |
| RefineClamps.EdgeMaskAt | stable_whisper/alignment.py:452-456 | Word k of segment s has the mask its position in that segment gives. |
| RefineClamps.Batches | stable_whisper/alignment.py:473-494 | No batches exactly when there are no words (the source fails on `start_times[0]`). |
| RefineClamps.BatchesPartition | stable_whisper/alignment.py:478-494 | The batches are non-empty, consecutive, and cover all words. Each holds at most `max(cap, 1)` words. A batch ends exactly where the 30 s span or the word cap would be exceeded. |
| RefineClamps.JoinPieces | stable_whisper/alignment.py:484-494 | Cutting the words at the batches and joining the pieces gives the words back. |
| RefineClamps.SegPos | stable_whisper/alignment.py:452-456 | Every flat word index lies at one position inside one segment, after all words of the earlier segments. |
| RefineClamps.BatchMaskAt | stable_whisper/alignment.py:452-484 | Word k of a batch gets the mask of its position in its own segment, also in a batch that crosses segment boundaries. |
| RefineSearch.StepWord | stable_whisper/alignment.py:627-683 | A finished word never changes and the stored probability stays positive. |
| RefineSearch.StepDirection | stable_whisper/alignment.py:646-683 | A failed probe marks a rejection and keeps the side that still holds the word's sound (end: lower bound moves up; start: upper bound moves down); a pass does the opposite. The probe point is recorded only if the token's rank did not fall. A finishing word keeps its interval and baseline; otherwise the probe's probability becomes the baseline through the `new_probs` alias. |
| RefineSearch.StepNarrows | stable_whisper/alignment.py:659-680 | A step that does not finish keeps the interval centred, nested, at least 3 frames wide, and at most half as wide. |
| RefineSearch.InitSearch | stable_whisper/alignment.py:510-511 | The initial probe point is the rounded middle of the range. |
| RefineSearch.InitWord | stable_whisper/alignment.py:595-598 | A word is searched only when it is likely enough, has a duration and, at segment level, carries the mask of the edge being refined; at word level only probability and duration decide. |
| RefineSearch.SegmentLevelEdges | stable_whisper/alignment.py:597-598 | At segment level only a segment's first start and the last end of a segment of two or more words are searched. |
| RefineSearch.Round | stable_whisper/alignment.py:627-683 | A round keeps every stored probability positive and leaves every finished word exactly as it was. |
| RefineSearch.RoundNarrows | stable_whisper/alignment.py:659-680 | In a round, every word still searching from a centred interval moves to a centred interval inside the old one and at most half as wide; no interval widens. |
| RefineSearch.RunKeepsFinished | stable_whisper/alignment.py:629-630 | A finished word is never touched again. |
| RefineSearch.RunTerminates | stable_whisper/alignment.py:621 | Starting from centred ranks at most `bound` frames wide, 1 + log2(bound) rounds finish every word. |
| RefineSearch.RunWithinStart | stable_whisper/alignment.py:659-682 | Every recorded probe point stays in the word's starting range. |
| RefineSearch.ProposedTs | stable_whisper/alignment.py:568-577 | A proposal exists exactly when a point was recorded and some probe passed, none failed, or the proposal moves the edge outward (after the end, before the start); it is the offset plus the point in seconds, rounded to the millisecond. |
| RefineSearch.UpdateTs | stable_whisper/alignment.py:568-589 | Only the refined edge changes, only when verbose and a proposal exists, and then to that proposal. |
| RefineSearch.ProposedWithinStart | stable_whisper/alignment.py:571 | A proposal lies in the starting range converted to seconds, up to the millisecond rounding. |
| RefinePass.Frames | stable_whisper/alignment.py:445-448 | Seconds become frames within half a frame. |
| RefinePass.InitBatch | stable_whisper/alignment.py:505-511 | Each word of the batch starts with no changes, the centred range from its start limit to its end (starts) or its start to its end limit (ends), and the initial finished flag. |
| RefinePass.WriteBack | stable_whisper/alignment.py:659-661 | Writing back changes only the refined edge, and nothing without verbose. |
| RefinePass.RefineBatch | stable_whisper/alignment.py:498-683 | A batch's words keep their texts and probabilities and the other edge; without verbose they are unchanged. |
| RefinePass.RefineBatchAt | stable_whisper/alignment.py:568-569 | A word of a refined batch is rewritten by update_ts exactly when its search finished, and is otherwise the word as it was. |
| RefinePass.RefineBatchKeepsSkipped | stable_whisper/alignment.py:595-602 | A word the pass never searches leaves the batch unchanged. |
| RefinePass.RefineBatchWithinLimits | stable_whisper/alignment.py:505-511 | A changed start lies between the start limit and the word's end, a changed end between the word's start and the end limit, up to frame and millisecond rounding. |
| RefinePass.ApplyBatchesSame | stable_whisper/alignment.py:498 | Refining all batches changes only the refined edge, and nothing without verbose. |
| RefinePass.RefineStep | stable_whisper/alignment.py:496-498 | A pass fails exactly on an empty word list; otherwise only its edge changes, and nothing without verbose. |
| RefinePass.RunSteps | stable_whisper/alignment.py:694-697 | All passes keep the word count, texts and probabilities; without verbose nothing changes. |
| RefinePass.Refine | stable_whisper/alignment.py:420-442 | Argument errors come first; then an empty word list fails; otherwise texts, probabilities and the word count are kept and, without verbose, the words are returned unchanged. |
| LocateWindow.Normalise | stable_whisper/alignment.py:832-833 | A single number stands for the same span before and after. |
| LocateWindow.CheckWindowAsWritten | stable_whisper/alignment.py:834-837 | The window is rejected exactly when its sum in seconds reaches 480000; the skip is 480000 less the part before, in samples. |
| LocateWindow.AsWrittenAcceptsStallingWindow | stable_whisper/alignment.py:834-837 | A 30 s window passes the check as written with a skip of zero samples. |
| LocateWindow.CheckWindow | stable_whisper/alignment.py:834-837 | The window is rejected exactly when its sum in samples reaches one model window. |
| LocateWindow.CheckWindowAdvances | stable_whisper/alignment.py:834-837 | A window of non-negative parts that passes gives a positive skip, and passes the check as written with the same skip. |
| Common.SliceLen | stable_whisper/alignment.py:871 | The length of a slice is at most the list's length and is `j - i` for in-range bounds. |
| LocateWindow.SearchRange | stable_whisper/alignment.py:863-866 | `end` trims the audio to its sample count and `start` sets the first cursor, each only when non-zero. |
| LocateWindow.SearchRangeIsSlice | stable_whisper/alignment.py:863-866 | For non-negative bounds the samples the search visits are exactly `audio[start:end]` in samples. |
| LocateWindow.ConfirmWindow | stable_whisper/alignment.py:916-919 | The confirmation window runs from the estimate less the part before (not below 0) to the estimate plus the part after, to the millisecond. |
| LocateWindow.ConfirmWindowContains | stable_whisper/alignment.py:916-919 | For non-negative inputs it starts at 0 or later, contains the rounded estimate, and its frames are in order. |
| LocateDecode.Recorded | stable_whisper/alignment.py:970-972 | The intended rule records the decoder's pick once recording started or when the pick differs from the target. As written, with a non-end-of-text best token only a started recording continues, with the target token. |
| LocateDecode.AsWrittenMissesReplacement | stable_whisper/alignment.py:970-972 | A pick 5 replaced by target token 7 leaves the buffer empty as written but records 5 as intended. |
| LocateDecode.StepKeepsReplacedChoices | stable_whisper/alignment.py:970-973 | An accepted token step appends the decoder's pick exactly when recording started or the pick differs from the target. |
| LocateDecode.RecordRuleOnlyAffectsReplay | stable_whisper/alignment.py:957-1003 | The recording rule changes nothing but the replay buffer and cache resets. |
| LocateDecode.StepSpec | stable_whisper/alignment.py:944-1003 | One step keeps the cursor within the target, counts the match once, and resets cursor and buffer on a rejection (clearing the cache when the buffer held tokens). A text match ends the search with the cursor where it was. It adds one prediction, and stops only on the cap or on an end-of-text token after enough of them or after the match, and always stops on such an end-of-text token. |
| LocateDecode.RunSpec | stable_whisper/alignment.py:934-1006 | Over a window the match is counted at most once and the predictions only grow; the loop has stopped after more steps than `max_token_per_seg` allows. |
| LocateDecode.RunFindsExactPicks | stable_whisper/alignment.py:956-978 | When the decoder picks every target token in turn, the target is found with exactly those tokens as predictions. |
| LocateSearch.LocateOnce | stable_whisper/alignment.py:900-1053 | Outside mode 2 a window list shorter than two or an empty target is the IndexError; mode 2 records the estimate as the previous one. |
| LocateSearch.SkipAdvances | stable_whisper/alignment.py:1051 | With the cursor inside the audio and a positive skip, an unconfirmed window moves the cursor forward. |
| LocateSearch.LocateOnceSpec | stable_whisper/alignment.py:904-1051 | A match is reported exactly when the found count grows by one. Mode 2 always reports one, without tokens. With sane estimates the cursor never moves back, and it moves forward after a window without a match. |
| LocateSearch.UnconfirmedEnds | stable_whisper/alignment.py:905-910 | In mode 2 a repeated estimate, a reached count, or a window reaching the end ends the search. |
| LocateSearch.SearchSpec | stable_whisper/alignment.py:1058-1060 | Every match is counted once, a positive count is never passed, each window gives at most one match, and the cursor never moves back. |
| LocateSearch.Locate | stable_whisper/alignment.py:832-1065 | A window that fails the check is reported before any search. |
| LocateSearch.LocateCounts | stable_whisper/alignment.py:1058-1065 | With a positive count no more matches than asked for are returned; a range starting at or past the audio's end returns none. |

## Left out

- Audio loading, Demucs, voice-frequency filtering, mel spectrograms and every model call: the word timer, the refine prober and the locate observations stand for them.
- Tokenisation (`tokenizer.encode`, `split_word_tokens`) and the language and tokenizer checks of `align`; words arrive already tokenised.
- `add_word_timestamps_stable`, `WhisperResult` construction and its methods (`adjust_by_silence`, `update_all_segs_with_words`, `offset_time`): outside the alignment control logic.
- Floating-point error: times are exact reals. `ts_to_frames` is modelled as exact rounding of the real product.
- Progress bars, `progress_callback`, warnings and printed messages.
- AlignWindow.Extractor: the timer may merge punctuation into neighbouring words, so word conservation is promised only for timers that return the words they were given, and token conservation only for timers that lose no token.
- AlignSplit.Align: takes the character bounds as given; `AlignText.PrepareText` computes them for a string, but the `WhisperResult` input (per-segment word lengths, its tokens or its text) is not modelled.
- RefineSearch.StepWord: requires positive probabilities (as do `RefineSearch.Fails` and `RefinePass.ValidProber`); the source divides by `orig_probs` and `prev_probs` unguarded, so a probability of 0 gives an infinite or undefined ratio there, which is not modelled.
- LocateSearch.Locate: uses the corrected window check `LocateWindow.CheckWindow`, so a window whose sum lies between 30 s and 480000 s is refused here where the source accepts it (see Findings).
- LocateDecode.Step: uses the intended recording rule, so the replay buffer holds the decoder's picks, not what the source records as written (see Findings); everything else about the step is the same under both rules.
- AlignWindow.AlignLoop: the source loop has no bound of its own, so a `fuel` parameter bounds it; running out of fuel stops early.
- RefineSearch.Run: stops when the probe rounds run out. `RefineSearch.RunTerminates` gives how many rounds suffice.
- LocateDecode.RunSpec: the decode loop stops when the step observations run out as well as on the source's own conditions.
- LocateSearch.SearchSpec: the window loop stops when the window observations run out as well as on the source's guard.
- `refine`'s mel masking (`prob_indices`, the two interleaved mel rows and which frames are zeroed): the prober returns the resulting probabilities and ranks directly.
- `refine`'s per-token probabilities and word-boundary token choice in `get_prob`: each word comes with one probability and rank.
- LocateSearch.LocateOnce: a mode 1 match carries the decoded tokens and end time but not the window text, per-word split or averaged probabilities. A mode 0 match carries the tokens and the last word's end but not the timed words.
- LocateDecode.StepObs: the case-insensitive `endswith` test on the decoded text is a flag of each step. The decoded-text buffer `tokens_to_decode` and the replay of recorded tokens into the decoder are not modelled.
- LocateDecode.RunFindsExactPicks: states the exact-pick case only; other paths to a match are covered by `LocateDecode.StepSpec`.
- `initial_prompt`, `suppress_tokens` and the decoder's initial tokens: they only shape the decoder's outputs, which come in as observations.

## Findings

| source | as written | input that shows it | evidently intended | confidence | as-written member | corrected member |
|---|---|---|---|---|---|---|
| stable_whisper/alignment.py:835-837 | `assert CHUNK_SAMPLES > window_sum` compares 480000 samples with the window's sum in seconds | `duration_window=30.0` (sum 60) passes and gives `adjusted_chunk_size == 0`, so a full window without a confirmation leaves the cursor where it was | the window in samples must be shorter than one model window, so the skip is positive | high; not executed | LocateWindow.AsWrittenAcceptsStallingWindow | LocateWindow.CheckWindowAdvances |
| stable_whisper/alignment.py:970-972 | `best_token[None] = …` writes the target token through the tensor that `best_non_eot_token` also names when the best token is not end-of-text, so the pick is lost | target tokens `[7, 8]`, the decoder picks 5 while 7 has probability above the threshold: `replace_found_tokens` stays empty | record the decoder's pick 5, so a later mismatch replays the decoder's own tokens | medium; not executed | LocateDecode.AsWrittenMissesReplacement | LocateDecode.StepKeepsReplacedChoices |

Beyond these two findings, the model keeps the source's behaviour as written in these cases:

- `update_ts` writes a refined timestamp only when `verbose` is set. With `verbose` off, `refine` returns the words unchanged.
- A one-word segment gets edge mask 1, so at segment level its end is never refined.
- The batch cap of `refine` counts words, although it is named after tokens.
- Through the `new_probs`/`orig_probs` alias, a word's baseline probability becomes the last probe's probability whenever the word keeps searching.

# Sitewalk verification

Dafny models of seven components of the repository, and proofs about them. Everything is
for all inputs, all runs or all interleavings unless a row says otherwise.

- **Streaming transcript** (`crates/stt`). PCM arrives in pieces and is cut into
  overlapping windows (`Chunker.dfy`); each window's words are merged into the held tail and
  committed up to a time horizon (`Finalizer.dfy`); `push_pcm`, `poll` and `end` drive both
  (`Stream.dfy`). `Schedule.dfy` compares every run with one fold over the windows of the whole
  stream, `Bursts.dfy` says which schedules can lose words, `Seams.dfy` proves what the merge and
  the horizon guarantee, and `Retiming.dfy` holds a run that commits out of order. The decoder is an arbitrary function of everything it was handed
  so far; the energy gate is an arbitrary predicate.
- **Walk session** (`crates/ffi/src/session.rs`). `Pump.dfy` is the flag cell the pump thread parks
  on; `Session.dfy` is the whole session as a transition system with one step per lock-protected
  block, decode or blocking point; `SessionProofs.dfy` proves invariants of every interleaving,
  `PumpRuns.dfy` what a pause, a stop and a failed decode do to the pump, and `LiveTicks.dfy` that
  live ticks run one at a time and never beside the end of the session. `Walk.dfy` puts the
  session and the stream together, `WalkRuns.dfy` says when the pump decodes during a pause, and
  `WalkCases.dfy` holds three walks with their audio.
- **Eval arithmetic** (`crates/evals`, `spikes/stt-whisper`). Two Levenshtein loops against cheapest
  edit scripts (`EditDistance.dfy`), greedy matching against every alternative (`Matching.dfy`,
  `Grade.dfy`), token canonicalisation (`Normalize.dfy`, `Canonical.dfy`). Ratios are exact.
- **Binary readers** (`services/proxy`). CBOR (`Cbor.dfy`) beside the grammar of section 3.1 of RFC 8949
  (`CborGrammar.dfy`, `CborKeys.dfy`); DER values, object identifiers and ECDSA signatures (`Der.dfy`, `Oid.dfy`,
  `Signature.dfy`) beside encoders for sections 8.1, 8.3 and 8.19 of ITU-T X.690; `Bytes.dfy` and
  `Decimal.dfy` are shared.
- **Agent loop** (`crates/harness/src/agent.rs`): `Agent.dfy`, with arbitrary provider and tools.
- **Attestation** (`services/proxy`): `Attest.dfy` has the handlers over the store, `AttestHistory.dfy`
  every run of them.
- **Reflection** (`crates/murmur-core`): `Reflection.dfy` has the feed, the cadence and the two halves
  of `maybe_reflect`; `Coverage.dfy` what careful runs guarantee; `CoverageLoss.dfy` exactly when a
  session is lost; `BackOff.dfy` a default run that loses eight.

Where the source updates state in place the model is a class or a loop whose contract ties it to a
specification function; the lemmas are about that function.

## Where the code and its documentation part ways

The model follows the code. Each of these is proved.

- A `poll` or `end` whose later window fails to decode returns only the error: words already drained
  in that call are gone (`Schedules.FailureBreaksIndependence`). That can happen exactly when a poll
  finds two windows ready, or an end more than one with the final window counted
  (`Bursts.LossNeedsABurst`).
- Settings that pass `validate` can leave gaps between windows, samples no window ever contains: a
  negative overlap of a sample or more, or a window shorter than the step's floor of a tenth of a
  second. They do exactly when the step is longer than the window in whole samples
  (`Chunking.NoGapsIff`, `Chunking.ValidSettingsWithGaps`, `Chunking.OverlapLeavesNoGaps`).
- The emitted stream is not always in time order: a text seam that re-times its last match earlier
  commits words out of order (`Seams.EmittedInOrderIff`, `Retiming.RetimingEarlierBreaksOrder`).
- After `pause_pump` the pump can still take up windows exactly when a pass is in the middle of its
  windows, or is past the gate and a window is buffered or can still be pushed; it then decodes all it
  finds, not one (`WalkRuns.PausedPumpDecodesIff`, `WalkCases.AdmittedPassDecodesPaused`). Once a finish
  has signalled its stop the pause makes no difference, so the DONE flush decodes
  (`PumpRuns.StopIgnoresPause`, `WalkCases.FlushDecodesPaused`).
- A decode that fails before the last window of a pass leaves windows undecoded with no wake-up
  pending for them (`PumpRuns.ParksCleanIff`, `WalkCases.FailedPassStrandsWindows`).
- `tokens_ordered` is not idempotent: it changes its own output exactly when a merge has another
  "hundred" right behind it (`Canonical.TokensOrderedIdempotentIff`,
  `Canonical.HundredHundredIsNotIdempotent`).
- CBOR integers above 2^53 are rounded, and an otherwise well-formed map is refused as having duplicate
  keys exactly when two integer keys round to the same double or two text keys decode alike
  (`CborKeys.RefusedIffKeysCollide`, `CborKeys.KeysReadAlikeIff`, `CborKeys.CollidingKeys`).
- `decodeOid` misreads identifiers under root 2 whose second arc is 40 or more
  (`Oids.InvertsEncodingIff`). It accepts an identifier cut off inside an arc when only `0x80` bytes
  of that arc are there, or when only such bytes follow the very first byte, whose continuation bit
  it never looks at: the first byte of 2.999 reads as 3.16 (`Oids.AcceptsIff`,
  `Oids.CutFirstArcIsAccepted`).
- The comment on the activity query says `>=` never loses a session that ends between query and stamp.
  That holds only if it ends in the very second of the stamp (`CoverageLoss.PassLosesIff`,
  `CoverageLoss.OverlapLosesASession`).
- With the default settings the cadence backs off to sixteen sessions while a reflection is fed at
  most eight, and the other eight are lost (`CoverageLoss.BackingOffOutrunsTheFeed`,
  `BackOff.BackingOffLosesEight`).

## Model

| member | source | states |
|---|---|---|
| Chunking.ReadyCountIsExact | crates/stt/src/chunk.rs:42-47 | window k lies inside the audio received iff k is below the closed-form count of ready windows |
| Chunking.WindowIsStable | crates/stt/src/chunk.rs:42-53 | a ready window is the same slice of the stream whatever audio follows it |
| Chunking.WindowHolds | crates/stt/src/chunk.rs:42-53 | a ready window holds exactly the samples of its span, each in its place |
| Chunking.CoversEverySampleIff | crates/stt/src/chunk.rs:22-67 | ready windows and the flush window together cover every sample iff windows leave no gap (step at most a window) or the stream is at most one window |
| Chunking.NoGapsIff | crates/stt/src/chunk.rs:22-67 | settings reach every sample of every stream exactly when the step, floor included, is no longer than the window once both are whole samples |
| Chunking.OverlapLeavesNoGaps | crates/stt/src/chunk.rs:22-27 | an overlap of zero or more and a window of a tenth of a second or more always do |
| Chunking.ValidSettingsWithGaps | crates/stt/src/lib.rs:94-107 | a negative overlap, and a window under a tenth of a second, pass validation and do not |
| Chunking.NegativeOverlapWithoutGaps | crates/stt/src/chunk.rs:22-27 | a negative overlap shorter than a sample still does |
| Chunking.ZeroStepNeverRunsOut | crates/stt/src/chunk.rs:42-53 | with a step of no samples there is always another ready window once there is one |
| Chunking.Chunker.constructor | crates/stt/src/chunk.rs:22-27 | window and step are the durations times the rate, truncated, the step's duration floored at a tenth of a second; nothing is received or taken yet |
| Chunking.StepIsPositiveIff | crates/stt/src/chunk.rs:22-27 | windows move forward exactly when the floored step spans a sample; at 10 Hz and above they always do |
| Chunking.Chunker.Push | crates/stt/src/chunk.rs:29-31 | the stream grows by exactly the pushed samples; cursors stay consistent |
| Chunking.Chunker.TakeReadyWindow | crates/stt/src/chunk.rs:42-53 | the k-th window returned is the slice of the whole stream at k steps, whatever the push sizes; otherwise nothing, and then, if windows leave no gap, less than a window is buffered |
| Chunking.Chunker.Flush | crates/stt/src/chunk.rs:57-68 | once only, the rest of the stream from the cursor, marked final, if there is any |
| Chunking.Chunker.FreeConsumed | crates/stt/src/chunk.rs:70-79 | the buffer becomes the stream from the cursor (or its end) on; no cursor subtraction underflows |
| Finalizing.WordsFromSegments | crates/stt/src/finalize.rs:147-182 | the loop computes the words of a window: gated segments dropped, aligned ones per word with clamped times, others with the segment's span |
| Finalizing.SegmentWordsAre | crates/stt/src/finalize.rs:147-182 | a segment above the threshold gives no words, any other one per token in order: with a timing each, starting at its own time or where the last ended and never ending before it starts; else with the segment's span |
| Finalizing.TimedWordsAreOrdered | crates/stt/src/finalize.rs:161-172 | the timed words of a segment never overlap or run backwards |
| Finalizing.WindowWordsConcat | crates/stt/src/finalize.rs:147-182 | a window's words are those of its segments, in order |
| Finalizing.OverlapUpTo | crates/stt/src/finalize.rs:110-118 | the countdown finds a text overlap, and none larger up to the bound exists |
| Finalizing.BestOverlap | crates/stt/src/finalize.rs:110-118 | the largest text overlap of at most 40 words |
| Finalizing.OverlapStopsAtForty | crates/stt/src/finalize.rs:110-118 | a common text of up to forty words is always matched, and none longer is |
| Finalizing.RedecodedRun | crates/stt/src/finalize.rs:124-136 | the maximal leading run of words inside audio already held, under the precise or the coarse rule |
| Finalizing.CommitCutUnique | crates/stt/src/finalize.rs:141-144 | the committed front run is the only one that ends by the horizon and stops at the first word that does not |
| Finalizing.Finalizer.Merge | crates/stt/src/finalize.rs:105-137 | held words stay; of the new ones exactly the largest text overlap, or failing that the re-decoded leading run, is dropped |
| Finalizing.MergeKeepsNewSpeech | crates/stt/src/finalize.rs:105-137 | held words are untouched; with a matching text the largest is dropped; with none, each word dropped lies within audio held and the first one kept lies past all of it |
| Finalizing.WordsPastHeldSurvive | crates/stt/src/finalize.rs:123-136 | with no text in common, a word past all audio held is kept, and so is every word after it |
| Finalizing.Finalizer.FinalizeBefore | crates/stt/src/finalize.rs:141-144 | returns the front run that ends by the horizon and keeps the rest, in order |
| Finalizing.Finalizer.Ingest | crates/stt/src/finalize.rs:48-52 | committed and held words together are the merge of what was held with the window's words, cut at the horizon |
| Finalizing.Finalizer.Flush | crates/stt/src/finalize.rs:55-61 | the first flush commits everything held, later ones nothing |
| Streaming.SttStream.PushPcm | crates/stt/src/lib.rs:184-186 | only the input buffer grows |
| Streaming.SttStream.DecodeWindow | crates/stt/src/lib.rs:235-258 | gate, decode, merge and commit one window; an error leaves the held words alone |
| Streaming.EmitIsPointwise | crates/stt/src/lib.rs:287-293 | each word becomes one segment with its own span and text |
| Streaming.SttStream.DecodeReady | crates/stt/src/lib.rs:199-203 | decodes ready windows in order until none is left or one fails; a failure returns only the error |
| Streaming.SttStream.Poll | crates/stt/src/lib.rs:192-204 | the whole new state and result of a poll |
| Streaming.SttStream.End | crates/stt/src/lib.rs:213-233 | the whole new state and result of an end: ready windows, then the final window, or a flush when there is none |
| Schedules.RunFollowsFold | crates/stt/src/lib.rs:192-258 | after any calls, whatever failed, the held and drained words are those of one fold over the windows taken so far |
| Schedules.EndFollowsFold | crates/stt/src/lib.rs:192-258 | a run to the end succeeds throughout iff the stream's windows all decode in the fold, and then it drained the fold's transcript |
| Schedules.ScheduleIndependence | crates/stt/src/lib.rs:192-258 | two schedules of the same audio both succeed or both fail, and when they succeed emit the same segments: the fold's over the windows of the stream |
| Schedules.LossIsExactlyFailingCalls | crates/stt/src/lib.rs:192-258 | in any run emitted plus discarded words are the drained ones, which are those of the fold, and the output is complete iff none was discarded |
| Bursts.SlowRunsLoseNothing | crates/stt/src/lib.rs:192-233 | a schedule in which no poll finds two windows, nor the end more than one with the final one counted, loses nothing whatever fails |
| Bursts.BurstsCanLose | crates/stt/src/lib.rs:192-233 | in any other schedule some decoder makes a call discard a word |
| Bursts.LossNeedsABurst | crates/stt/src/lib.rs:192-233 | so a schedule is safe for every decoder and gate exactly under that condition on its push sizes |
| Schedules.CleanRunLosesNothing | crates/stt/src/lib.rs:192-258 | a run in which every call succeeds loses nothing |
| Schedules.EndIsIdempotent | crates/stt/src/lib.rs:211-233 | a second end with no audio in between returns nothing and changes no held word |
| Schedules.FailureBreaksIndependence | crates/stt/src/lib.rs:192-204 | two concrete schedules of the same audio, with a decoder that fails on its second window, emit different text |
| Seams.WindowAppends | crates/stt/src/finalize.rs:48-137 | one window extends committed-then-held words on the right by exactly the part of its words the seam keeps, or changes nothing |
| Seams.NewSpeechIsKept | crates/stt/src/finalize.rs:105-137 | over any windows, each adds to the history its words less just such a prefix |
| Seams.AppendOnly | crates/stt/src/finalize.rs:48-144 | over any windows no committed or held word is ever revised, and committed words stay committed |
| Seams.StartOnGrid | crates/stt/src/lib.rs:260-268 | with a step of whole milliseconds, window k starts k steps in, with no rounding |
| Seams.HorizonMeetsStart | crates/stt/src/lib.rs:247-254 | the horizon of a window is the start of the next one |
| Seams.BoundedHold | crates/stt/src/finalize.rs:48-144 | with overlap at most a step and times inside their windows, held words are a tail of the latest decoded window even across gated ones, and decoding a window commits all that was held before it |
| Seams.AnyRunHoldsOneWindow | crates/stt/src/lib.rs:192-258 | the same between any two calls of any run, failures included |
| Seams.WordsAnchored | crates/stt/src/finalize.rs:147-182 | words never start before their window, precise words never end before they start, and none ends past the window if the decoder's times do not |
| Seams.TimesStayInside | crates/stt/src/finalize.rs:147-182 | a decoder that keeps its times inside the window meets the hypothesis of the bounded hold |
| Seams.HistoryInOrderIff | crates/stt/src/finalize.rs:105-182 | with ordered per-word times, committed and held words are in time order iff every text seam resumes no earlier than the last held word |
| Seams.EmittedInOrderIff | crates/stt/src/finalize.rs:105-182 | the whole emitted stream of a successful run is in time order under that very condition, and only then |
| Seams.RetimedMatchResumesInOrder | crates/stt/src/finalize.rs:110-122 | the condition holds at a seam whose last matched word is not re-timed earlier |
| Retiming.RetimingEarlierBreaksOrder | crates/stt/src/finalize.rs:105-144 | a concrete run meets every other hypothesis and emits words out of order |
| PumpCells.PumpCell.Check | crates/ffi/src/session.rs:221-228 | one pass of the pump through the lock: parks, exits or takes the wake, with the flags it leaves |
| SessionProofs.EveryRunKeepsInvariants | crates/ffi/src/session.rs:205-365 | every state of every interleaving keeps the gate, input, lifecycle and text invariants |
| SessionProofs.StepPreserves | crates/ffi/src/session.rs:205-365 | each step keeps them |
| SessionProofs.NoLostWakeup | crates/ffi/src/session.rs:214-228 | a parked, un-notified pump has no stop and no unpaused wake pending; unread audio is announced, about to be, being taken, or the pump is stopping |
| SessionProofs.JoinNeverBlocks | crates/ffi/src/session.rs:320-331 | once stop is set the pump has a move whoever holds the extractor mutex and even if paused, and if parked it was notified |
| SessionProofs.StopDrivesPump | crates/ffi/src/session.rs:214-255 | once stop is set every pump step is strictly nearer to its exit and no other step moves it |
| SessionProofs.PumpCanExit | crates/ffi/src/session.rs:320-331 | from any such state pump steps alone reach the exit, so the join completes |
| PumpRuns.PauseHolds | crates/ffi/src/session.rs:706-722 | from pause to resume the pump passes its gate zero times; at most one poll starts, and only if the pump was past the gate at the pause; without one, only what was left of the pass is decoded |
| PumpRuns.StopIgnoresPause | crates/ffi/src/session.rs:216-228 | once the stop is set, every run is a run of the paused and of the unpaused session alike, with the same outcome |
| PumpRuns.ParksCleanIff | crates/ffi/src/session.rs:214-255 | from a poll to any later park with no wake and no stop, no window is left behind exactly when no decode failed before the pass's last window |
| PumpRuns.WakeAndResumeLetThrough | crates/ffi/src/session.rs:695-734 | a resume with a wake pending, or a wake while not paused, lets a parked pump through the gate with the wake taken |
| SessionProofs.ExactlyOneWinner | crates/ffi/src/session.rs:769-848 | over every interleaving of finish and cancel exactly one call wins and every other is stuck; the session is ended exactly by a finish that closed it and deleted exactly by a cancel that did; no live tick starts while the winner holds the guard |
| SessionProofs.TypedTextIsKept | crates/ffi/src/session.rs:651-659 | over every run nothing stored is lost or revised, and every text typed while recording is stored, in order |
| SessionProofs.OnlySpokenIsStored | crates/ffi/src/session.rs:261-271 | over every run every stored speech entry is a finalized text that is not blank and a space, and no empty text is announced |
| SessionProofs.FlushesOnceOnFinish | crates/ffi/src/session.rs:783-787 | over every run at most one flush: an ended session was flushed once if the flush is on and not at all otherwise, a deleted one never |
| LiveTicks.TicksRunAlone | crates/ffi/src/session.rs:669-674 | over every run ticks hold the extractor one at a time, and while the winner of the exits holds it every tick that started has finished |
| LiveTicks.OneTickPerEntry | crates/ffi/src/session.rs:651-674 | over every run, until the flush or the close, stored entries and ticks, finished or still to finish, are equally many |
| PumpRuns.ExitCanComplete | crates/ffi/src/session.rs:769-848 | from every reachable state a finish or cancel that won can run to completion: ticks end, the pump exits, and it flushes, closes and lets go |
| SessionProofs.LosersWriteNothing | crates/ffi/src/session.rs:769-834 | a losing call never takes a step again, in any continuation |
| SessionProofs.QuietAfterJoin | crates/ffi/src/session.rs:310-365 | after the winner's join the pump never steps, and once its flush is over no speech is stored and no text announced |
| SessionProofs.StoredSpeechIsAnnouncedText | crates/ffi/src/session.rs:261-283 | with no pass half fed and no flush half announced, the stored speech is the concatenation of the announced texts; the session is recording while the pump lives |
| Walks.FlushedWalkStoresTheTranscript | crates/ffi/src/session.rs:205-365 | over every interleaving in which no decode fails up to a finish that flushes, the stored speech from the flush on is the transcript of all audio pushed before it, and once the flush is announced so are the announced texts |
| WalkRuns.RunsInStep | crates/ffi/src/session.rs:205-255 | in every run, failures included, what is left of a pass is exactly the ready windows, and what a failed one left behind is among them |
| WalkRuns.PausedPumpDecodesIff | crates/ffi/src/session.rs:214-245 | in every paused state that is reached, the pump can take up a window before the next resume exactly when a pass has windows left, or is past the gate with a window ready in what is buffered or a host that can still push |
| WalkCases.AdmittedPassDecodesPaused | crates/ffi/src/session.rs:230-245 | audio of n windows, a pause that lands past the gate, and all n are handed to the decoder while paused |
| WalkCases.FlushDecodesPaused | crates/ffi/src/session.rs:340-359 | one sample pushed, then paused and finished: the flush hands it to the decoder and stores its word while paused |
| WalkCases.FailedPassStrandsWindows | crates/ffi/src/session.rs:244-253 | audio of n > 1 windows whose first decode fails: the pump parks, with no wake pending, on the other n - 1 |
| EditDistance.ComputeDistance | crates/evals/src/asr.rs:104-116 | the two-row loop returns the edit distance |
| EditDistance.TokenEditDistance | spikes/stt-whisper/src/wer.rs:23-42 | so does the spike's loop, on all inputs |
| EditDistance.NoScriptIsCheaper | crates/evals/src/asr.rs:104-116 | no insert/delete/substitute script costs less than the distance between what it reads and what it writes |
| EditDistance.CheapestScript | crates/evals/src/asr.rs:104-116 | a script of exactly that cost exists |
| EditDistance.DistanceIsOptimal | crates/evals/src/asr.rs:104-116 | the distance is the cost of a cheapest script |
| EditDistance.Symmetric | crates/evals/src/asr.rs:104-116 | it is symmetric |
| EditDistance.ZeroIffEqual | crates/evals/src/asr.rs:104-116 | it is zero exactly on equal sequences |
| EditDistance.Triangle | crates/evals/src/asr.rs:104-116 | it satisfies the triangle inequality |
| EditDistance.WithinLengths | crates/evals/src/asr.rs:104-116 | it lies between the difference of the lengths and the longer length |
| Matching.GreedyPicksAreFree | crates/evals/src/grade.rs:157-162 | the pass picks candidates only, and uses no end twice |
| Matching.GreedyBlocksEverything | crates/evals/src/grade.rs:157-162 | every candidate has an end taken by a pick that stands no later in the list |
| Matching.GreedyIsHalf | crates/evals/src/grade.rs:157-162 | for any non-negative weight the list descends in, no matching of the candidates weighs more than twice the picks |
| Matching.SortRanks | crates/evals/src/grade.rs:154-156 | the sorted list is a permutation, by similarity downwards with ties by indices |
| Matching.RankedGreedyQuality | crates/evals/src/grade.rs:153-162 | sorted greedy is one-to-one, every candidate shares an end with a pick ranked at least as high, and no matching has over twice its pairs or its similarity |
| Grading.Candidates | crates/evals/src/grade.rs:142-152 | a pair is listed exactly when kinds agree and the common tokens, four times over, reach the tokens of both |
| Grading.MarkGreedy | crates/evals/src/grade.rs:157-162 | the marks on either side are exactly the ends of the greedy picks |
| Grading.MatchItems | crates/evals/src/grade.rs:139-162 | the marks record a kind-respecting matching that no alternative beats twofold, in size or in similarity |
| Grading.GradeItems | crates/evals/src/grade.rs:179-181 | hits are the picks; hits and misses make the expected items, hits and extras the observed ones |
| Grading.GradeKind | crates/evals/src/grade.rs:190-194 | the same sums hold within each kind, though hits are counted on one side and extras on the other |
| Grading.KindsBalance | crates/evals/src/grade.rs:190-194 | within a kind as many expected items are matched as observed ones |
| Grading.KindsAddUp | crates/evals/src/grade.rs:186-200 | over the deduplicated kinds the rows of the breakdown add up to the overall count |
| Grading.CountMarked | crates/evals/src/grade.rs:179-193 | each count is the number of items with that mark and kind |
| Grading.PerfectIffNoErrors | crates/evals/src/grade.rs:68-131 | F0.5 is non-negative, and one exactly when nothing was missed and nothing invented |
| Grading.ScoresInCounts | crates/evals/src/grade.rs:68-131 | with hits, F0.5 is 5tp/(5tp+fn+4fp) and F1 is 2tp/(2tp+fn+fp): an invention costs four times a miss in the one, the same in the other |
| Grading.GradeContacts | crates/evals/src/grade.rs:233-256 | first fit matches as many contacts as the greedy pass over the pairs in visiting order |
| Grading.ContactOkIff | crates/evals/src/grade.rs:238-247 | a contact is acceptable exactly when the names share half their tokens and, if a trade is expected, a trade is there that does too |
| Grading.ContactsAtLeastHalf | crates/evals/src/grade.rs:233-256 | no one-to-one assignment of acceptable contacts has more than twice as many |
| Grading.Dice | crates/evals/src/normalize.rs:196-203 | the coefficient lies between zero and one, empty sets included |
| Grading.DiceIs | crates/evals/src/normalize.rs:196-203 | it is twice the common tokens over all of both |
| Grading.DiceHitsIff | crates/evals/src/normalize.rs:196-203 | it reaches the threshold exactly when the sets are not both empty and four times the common tokens reach the tokens of both |
| Grading.DiceIsOneIff | crates/evals/src/normalize.rs:196-203 | it is one exactly on equal sets with something in them |
| Grading.DiceSymmetric | crates/evals/src/normalize.rs:194-203 | it is symmetric |
| Normalizing.RewriteNumericPunctuation | crates/evals/src/normalize.rs:80-98 | the loop drops commas between digits and sets a dimension x apart |
| Normalizing.RewriteSeparates | crates/evals/src/normalize.rs:80-98 | no x is left directly between two digits, even where a comma vanished beside it |
| Normalizing.RewriteBetweenDigits | crates/evals/src/normalize.rs:83-96 | between digits a comma disappears and an x stands apart, whatever surrounds them |
| Normalizing.RewriteLeavesAlone | crates/evals/src/normalize.rs:83-96 | a text with no such comma or x is left as it is |
| Normalizing.WordsSplitAt | crates/evals/src/normalize.rs:157-160 | text splits at every character that is not alphanumeric |
| Normalizing.OneWord | crates/evals/src/normalize.rs:157-160 | and nowhere else |
| Normalizing.StripsPluralIff | crates/evals/src/normalize.rs:182-192 | an s goes exactly from a word of four letters or more without a double s, and from a numeral |
| Normalizing.CombineNumberWords | crates/evals/src/normalize.rs:105-142 | the loop maps number words, then merges "hundred" and an optional numeral below a hundred |
| Normalizing.MergesHundreds | crates/evals/src/normalize.rs:121-135 | a numeral and "hundred" become one amount, with a numeral below a hundred right behind them added in |
| Normalizing.KeepsOtherTokens | crates/evals/src/normalize.rs:136-139 | any other token stays as it is |
| Normalizing.MergeIsExactIff | crates/evals/src/normalize.rs:121-134 | the merged amount is 100n+m exactly while that fits 64 bits |
| Decimals.ValueOfDecimal | crates/evals/src/normalize.rs:134 | a printed amount reads back as itself |
| Canonical.TokensAreCanon | crates/evals/src/normalize.rs:155-192 | every token of any ASCII text is left alone by each stage of the pipeline |
| Canonical.ReadBack | crates/evals/src/normalize.rs:155-163 | reading joined canonical tokens back only ever merges hundreds |
| Canonical.TokenSetIsIdempotent | crates/evals/src/normalize.rs:165-176 | joining the tokens of a set in any order, with or without repeats, gives the same set again |
| Canonical.TokensOrderedIdempotentIff | crates/evals/src/normalize.rs:155-163 | the ordered tokens read back as themselves iff the text, before the merge, has no numeral and "hundred" with another "hundred" right behind them and what they absorb |
| Canonical.MergeLeavesIff | crates/evals/src/normalize.rs:118-142 | the merge leaves a numeral before a "hundred" exactly in that case |
| Canonical.HundredHundredIsNotIdempotent | crates/evals/src/normalize.rs:155-163 | on "twelve hundred hundred" they do not |
| Cbor.SmallIntegersAreExact | services/proxy/src/cbor.ts:83-89 | a 64-bit argument up to 2^53 is exact, and the next one rounds onto its neighbour |
| Cbor.SmallDoublesAreExact | services/proxy/src/cbor.ts:83-89 | an argument read as less than 2^53 was that very integer |
| Cbor.RoundsLikeADouble | services/proxy/src/cbor.ts:83-89 | any 64-bit argument becomes the nearest multiple of the power of two that leaves 53 significant bits, the even one of two |
| Cbor.Cursor.ReadHead | services/proxy/src/cbor.ts:60-93 | reads the head at the cursor or fails as it does, and moves past exactly its bytes |
| Cbor.Cursor.ReadValue | services/proxy/src/cbor.ts:95-150 | reads the value at the cursor or fails as it does, and moves past exactly its bytes |
| Cbor.Cursor.ReadArray | services/proxy/src/cbor.ts:125-130 | reads the declared number of items |
| Cbor.Cursor.ReadMap | services/proxy/src/cbor.ts:131-145 | reads the declared number of entries, refusing other keys and duplicates |
| Cbor.ParseValue | services/proxy/src/cbor.ts:95-150 | a value read takes at least a byte and never runs past the buffer; with that it terminates whatever counts are declared |
| Cbor.ParseItems | services/proxy/src/cbor.ts:125-130 | n items take at least n bytes |
| Cbor.DecodeCbor | services/proxy/src/cbor.ts:158-169 | decodes one value that is the whole buffer, or returns the error |
| CborGrammar.HeadRoundTrip | services/proxy/src/cbor.ts:60-93 | a head written with any width that fits reads back |
| CborGrammar.ParsesEncoding | services/proxy/src/cbor.ts:95-150 | an encoded item standing anywhere in a buffer is read as its meaning and consumed exactly |
| CborGrammar.ParsedIsEncoding | services/proxy/src/cbor.ts:95-150 | conversely the bytes of any value read are the encoding of an item with that meaning |
| CborGrammar.DecodesEveryEncoding | services/proxy/src/cbor.ts:158-169 | the decoder inverts every choice of head widths |
| CborGrammar.AcceptsExactlyTheGrammar | services/proxy/src/cbor.ts:158-169 | it accepts exactly the well-formed items of section 3.1 of RFC 8949, major types 0 to 5, with decodable text, fit and unrepeated keys, and at most 17 levels |
| CborGrammar.PrefixFree | services/proxy/src/cbor.ts:152-169 | no encoding is a proper prefix of another |
| CborGrammar.IntegersRoundTrip | services/proxy/src/cbor.ts:103-106 | integers within 2^53 come back as written |
| CborKeys.RefusedIffKeysCollide | services/proxy/src/cbor.ts:131-143 | a map whose keys and values are all well formed is refused exactly when two keys read alike, and then as a duplicate |
| CborKeys.KeysReadAlikeIff | services/proxy/src/cbor.ts:135-141 | two keys read alike exactly when they are integers that round to the same double or texts that decode alike |
| CborKeys.SmallKeysCollideOnlyIfEqual | services/proxy/src/cbor.ts:131-143 | with integers within 2^53, only if the same integer is written twice |
| CborKeys.CollidingKeys | services/proxy/src/cbor.ts:83-89 | the encoded map with the different keys 2^53 and 2^53+1 is refused as a duplicate |
| Der.ParseTlv | services/proxy/src/der.ts:46-75 | reads the header at a position, or fails as it does |
| Der.TlvAt | services/proxy/src/der.ts:46-75 | a header read lies inside the buffer, two bytes long at least |
| Der.ReadChildren | services/proxy/src/der.ts:78-88 | the loop returns the children, or fails as they do |
| Der.ChildrenTile | services/proxy/src/der.ts:78-88 | it succeeds exactly when values tile the content, and returns that tiling |
| Der.TilesCover | services/proxy/src/der.ts:78-97 | the children's bytes, headers included, are together exactly the content |
| Der.RebuildsTree | services/proxy/src/der.ts:46-97 | parsing an encoded tree and recursing through children gives the tree back, whatever its length forms |
| Der.RebuiltIsEncoded | services/proxy/src/der.ts:46-97 | whatever rebuilds was the encoding of a tree of that shape |
| Der.RebuildIsExact | services/proxy/src/der.ts:46-97 | a buffer rebuilds to a tree iff it is the encoding of one with single-byte tags and lengths below 2^32 |
| Oids.DecodeOid | services/proxy/src/der.ts:100-118 | the loop computes the dotted arcs, or fails on nothing and on an unfinished arc |
| Oids.DottedIsInjective | services/proxy/src/der.ts:117 | different arcs are never written alike |
| Oids.InvertsEncodingIff | services/proxy/src/der.ts:100-118 | it gives back the dotted form of an identifier encoded as in section 8.19 of X.690 iff the second arc is below 40 |
| Oids.AcceptsIff | services/proxy/src/der.ts:100-118 | bytes are accepted iff some prefix ends an arc, or is the first byte alone, and only 0x80 bytes follow it |
| Oids.CutFirstArcIsAccepted | services/proxy/src/der.ts:104-105 | any lone byte is accepted; the first byte of the encoding of 2.999 reads as 3.16 |
| Oids.PaddedTailIsAccepted | services/proxy/src/der.ts:107-116 | a 0x80 after accepted bytes is accepted and changes nothing |
| Signatures.Place | services/proxy/src/der.ts:291-298 | writes the stripped component right-aligned into its half and nothing else, or reports it too large |
| Signatures.EcdsaDerToRaw | services/proxy/src/der.ts:282-302 | the whole conversion, errors included |
| Signatures.PreservesValues | services/proxy/src/der.ts:282-302 | accepted iff a SEQUENCE starts with two INTEGERs whose unsigned values fit the size; the halves then have those values |
| Signatures.RecoversEverySignature | services/proxy/src/der.ts:273-302 | every r and s below 256^size, in the form of section 8.3 of X.690, come back exactly |
| Agents.Agent.Run | crates/harness/src/agent.rs:74-148 | the loop is the run specified, with its log of requests, responses and tool calls |
| Agents.Agent.ExecuteAll | crates/harness/src/agent.rs:128-143 | every call is answered in order, failures as error results |
| Agents.Replies | crates/harness/src/agent.rs:128-143 | one reply for each call, under its id, from a tool that saw all calls before it |
| Agents.EveryRunIsWellFormed | crates/harness/src/agent.rs:74-148 | the input is a prefix of every request, each strictly extends the last, every tool-call block of a message is answered at once, in order and under its id, the final message has none, there are at most max_turns requests, and the usage returned, on success and on error, is the sum over completed calls |
| Agents.ToolUsesAreAllCalls | crates/harness/src/agent.rs:103-111 | the calls executed are the blocks at exactly the positions of a message's tool calls |
| Agents.KnownDropsOnlyUnknown | crates/harness/src/agent.rs:97-101 | only unknown blocks are dropped from a response, and the rest keep their order |
| Agents.TextGrows | crates/harness/src/agent.rs:114-121 | the text returned is the text blocks, each after the first on a new line |
| Agents.TotalIsPartwise | crates/harness/src/agent.rs:94 | each of the four token counts adds up on its own |
| Agents.TurnKeepsRunning | crates/harness/src/agent.rs:94-144 | a completed turn keeps all of that |
| Attestation.Proxy.IssueChallenge | services/proxy/src/attest.ts:670-674 | the challenge is recorded for its install |
| Attestation.PlausibleKeyIdIff | services/proxy/src/attest.ts:718-720 | a key id is plausible iff it is 43 base64 characters, perhaps one more, and then at most two "=" |
| Attestation.Proxy.ClaimChallenge | services/proxy/src/attest.ts:686-695 | succeeds iff the challenge is this install's, and then removes it |
| Attestation.Proxy.HandleAttest | services/proxy/src/index.ts:264-297 | the whole effect of an enrolment: missing fields, a bad key id, a challenge not this install's, the verifier's own refusals, in order, the challenge spent before the attestation is looked at |
| Attestation.Proxy.HandleAssert | services/proxy/src/index.ts:299-327 | the whole effect of an assertion: ownership, a missing field, decoding, signature, app and counter in order, the counter stored, the token minted |
| AttestHistory.StepKeeps | services/proxy/src/index.ts:251-342 | every handler step, and every expiry, keeps the history invariant |
| AttestHistory.ChallengesAreSpentOnce | services/proxy/src/attest.ts:676-695 | over every run a challenge is spent at most once, and only by the install it was issued to earlier |
| AttestHistory.CountersIncrease | services/proxy/src/attest.ts:514-518 | over every run, between two enrolments of a key its accepted counters strictly increase |
| AttestHistory.AcceptedAssertionsWereVerified | services/proxy/src/index.ts:277-327 | over every run an accepted assertion is signed, over the challenge its install had just spent, under the public key of the key's latest enrolment, is for this app and carries the stored counter; that enrolment's attestation was accepted on the challenge spent there |
| AttestHistory.AssertionAcceptedIff | services/proxy/src/attest.ts:478-519 | an assertion is accepted exactly when its challenge and key are the install's and it verifies with a higher counter; nothing but that counter and the challenge changes |
| AttestHistory.AttestationAcceptedIff | services/proxy/src/index.ts:264-297 | a key is enrolled exactly when its challenge is the install's and its attestation verifies, with what was verified and counter zero |
| AttestHistory.TokenAcceptedIff | services/proxy/src/attest.ts:596-659 | a token is accepted exactly when it is genuine, unexpired, this install's, and its key is enrolled by this install |
| AttestHistory.AcceptedTokensAreBound | services/proxy/src/attest.ts:596-659 | over every run an accepted token is unexpired, was minted by an assertion of the presenting install for that key, and the key's latest enrolment is that install's |
| Reflecting.TrimKeepsTheInterval | crates/harness/src/reflection/policy.rs:25-77 | trimming the churn history to eight never changes the interval required |
| Reflecting.IntervalDoubles | crates/harness/src/reflection/policy.rs:62-77 | past warm-up the interval is two to the number of trailing low churns, at most 64 and at most the ceiling |
| Reflecting.ReflectsIff | crates/harness/src/reflection/policy.rs:79-88 | never without a session; at the next one during warm-up or after a correction; otherwise once the interval is reached |
| Reflecting.ReflectedIs | crates/harness/src/reflection/policy.rs:28-37 | a completed reflection clears both counters, counts itself and keeps the latest eight churns |
| Reflecting.RowsAreTheNewest | crates/murmur-core/src/reflection.rs:110-121 | the query returns exactly the eligible rows with fewer than the limit newer ones |
| Reflecting.FedIff | crates/murmur-core/src/reflection.rs:108-141 | a session is fed iff it is eligible, not blank, and outranked by fewer than the limit of eligible sessions, blank ones included |
| Reflecting.FeedIsOldestFirst | crates/murmur-core/src/reflection.rs:139 | the feed runs from the oldest session to the newest |
| Reflecting.BodyIs | crates/murmur-core/src/reflection.rs:124-137 | a summary with something in it stands for the session, else up to 500 characters of its transcript, behind the job's name |
| Reflecting.TextsAreEntries | crates/murmur-core/src/reflection.rs:134-137 | the feed has one entry for each row, in the rows' order |
| Reflecting.Store.ActivityForReflection | crates/murmur-core/src/reflection.rs:108-141 | the loop and the reversal produce the entries of the feed: summary or bounded excerpt, with the job's name |
| Reflecting.Store.RecordReflection | crates/murmur-core/src/reflection.rs:84-89 | counters reset, the reflection counted, churn appended and trimmed, the time stamped |
| Reflecting.Store.EndAndRecordSession | crates/murmur-core/src/store/sessions.rs:479-485 | a recording session is ended now and counted, together; any other is refused and nothing changes |
| Reflecting.Coordinator.Begin | crates/murmur-core/src/coordinator.rs:78-109 | a pass starts iff the policy says so and something is fed, with the current memory saved first |
| Reflecting.Coordinator.Conclude | crates/murmur-core/src/coordinator.rs:111-138 | only a pass that ended with everything saved is stamped; an engine failure leaves memory and signals alone, a failed save leaves new memory over old disk, a failed stamp leaves the signals as they were |
| Coverage.StepKeeps | crates/murmur-core/src/reflection.rs:84-141 | every step keeps the row invariants |
| Coverage.RepeatsSitOnTheStamp | crates/murmur-core/src/reflection.rs:113-117 | over every run a session already covered is fed again only if it ended in the second of the last stamp |
| Coverage.CarefulRunsLoseNothing | crates/murmur-core/src/coordinator.rs:78-139 | if no session ends during a pass and none is offered more than its limit, every ended, live session with a non-blank excerpt is covered or still eligible, failed passes included |
| Coverage.CompletionCoversEverySession | crates/murmur-core/src/coordinator.rs:78-139 | under the same hypothesis a completed reflection leaves no such session uncovered |
| CoverageLoss.LostForever | crates/murmur-core/src/reflection.rs:108-121 | a session that ended before the stamp, uncovered and in no pass, is never covered in any continuation |
| CoverageLoss.PassLosesIff | crates/murmur-core/src/coordinator.rs:78-139 | in any reachable state with no other pass, a pass loses a session not lost before iff it ended before the second of the stamp, is uncovered, and at the query had not ended, was blank, or had the limit of newer ones |
| CoverageLoss.OverlapLosesASession | crates/murmur-core/src/reflection.rs:113-116 | a concrete run loses a session that ends between query and stamp, for good |
| CoverageLoss.BackedOffWaitsForSixteen | crates/harness/src/reflection/policy.rs:50-86 | past warm-up with four low churns and no correction, the default policy reflects iff sixteen sessions were counted |
| CoverageLoss.RunKeepsCount | crates/murmur-core/src/reflection.rs:66-89 | without deletions, at most as many sessions are counted as are eligible |
| CoverageLoss.BackingOffOutrunsTheFeed | crates/murmur-core/src/coordinator.rs:52 | so over every run without deletions a backed-off default pass finds at least sixteen eligible sessions, takes at most eight, and leaves out the oldest |
| BackOff.BackingOffLosesEight | crates/murmur-core/src/coordinator.rs:52 | a legal default run reaches that state: five low-churn reflections, fifteen sessions with none due, due at the sixteenth; the pass takes eight and the first eight are lost to every later run |
| BackOff.OutrankedByEight | crates/murmur-core/src/coordinator.rs:52 | the same loss from the exact condition for one pass: eight newer sessions outrank each of them |

## Left out

- 64-bit wrap-around of sample counts and milliseconds: times and lengths are unbounded naturals.
- f32 samples, RMS energy and float thresholds: reals, and an arbitrary voice predicate.
- Rounding of `chunk_secs` and `overlap_secs` as floats: they are reals, truncated as the code does. Below 10 Hz the step can be zero, and a poll with a window ready then never ends; streams with such settings are outside the model, chunkers are not.
- Whisper, token grouping, the bias prompt and the preview tail: the decoder is arbitrary; the preview changes no state.
- Streaming.SttStream.End: audio pushed after a successful end is decoded only as whole windows, as in the code; `Schedules` covers runs with one end.
- Seams.BoundedHold: window starts on whole milliseconds and overlap at most a step are assumed, as with the defaults.
- Sessions: the end-of-walk `process()` call, notes payloads, board snapshots and preview events, the content of live ticks, host panics, a runtime that is gone before a tick is spawned, and mutex poisoning; appends are assumed to succeed while the session is recording.
- SessionProofs.PumpCanExit: says the pump can always exit and always gets nearer, given that the scheduler runs it and decodes return; fairness is not modelled.
- `contains_phrase`, `expand_currency`, `grade_asr` and the spike's recall and noise code: easy beside the edit distance.
- The confusion table, distractor rate, summary voice and the rounding of scores: one-line counts over the same marks.
- Grading.KindsAddUp: takes the deduplicated list of kinds as given; sorting it is not modelled.
- Grading.MatchItems: items come with their tokens; kinds and tokens are compared as in the code, the tokens' own pipeline is in `Normalizing`.
- Non-ASCII text in the canonicaliser: case folding and Unicode alphanumerics. In a debug build the overflow that `Normalizing.MergeIsExactIff` delimits panics instead of wrapping.
- Text decoding of CBOR: a parameter, so byte-order marks and UTF-8 errors are the parameter's.
- CborGrammar.AcceptsExactlyTheGrammar: buffers of 2^53 bytes and more.
- Signatures.PreservesValues: a component size of at least one byte; the three supported curves use 32, 48 and 66.
- Oids.DecodeOid: arcs are exact naturals; the rounding of arcs above 2^53 and exponent notation are not modelled.
- AttestHistory.CountersIncrease: key ids are compared as strings, as the store does. One 32-byte id has several accepted spellings (base64, base64url, padding), each a key of its own; nothing is claimed across spellings.
- AttestHistory.AcceptedTokensAreBound: the same holds for the key a token names; only tokens minted in the run verify, and token text, its split and its JSON are not modelled.
- Agents.EveryRunIsWellFormed: token counts are unbounded; the overflow of the usage counters is not modelled.
- X.509 certificate walking, chain verification, authenticator data and the ECDSA, HMAC and hash primitives: arbitrary predicates or ideal functions.
- AttestHistory: each handler is one atomic step; replication delay between get and delete, which the code's own comment admits, is not modelled. Challenges never repeat.
- JSON bodies, logging, metering and the other routes of the proxy.
- SQL itself: the activity query is modelled by its filter, order and limit over a list of sessions; ids are compared as numbers.
- Coverage.CarefulRunsLoseNothing: the clock does not run backwards; a session blank at a query and summarised only later is not claimed, since the code does lose it.
- A session swept as a zombie never gets an end time, so it is never fed; the model shows it as not ended and claims nothing for it.
- Token usage rows and the memory store's snapshot rotation.
- The reflection engine, its prompts and the churn it computes.
- User interface, photos, pricing, credential splitting and spike benchmarks.

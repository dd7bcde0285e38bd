# Batch photo processing: a Dafny model

This project models the batch pipeline of a mobile app that turns product
photos into marketplace main images:

- the client-side batch processor. It sends queued photos one at a time to the
  server, maps every failure to a user-facing message, and honours
  pause / resume / cancel at two checkpoints per item;
- the batch queue store, i.e. the reducers of the queue context;
- the batch queue screen. It wires the processor's callbacks into the store,
  and provides retry, done and save-all, plus the header's counts and progress;
- the server's `POST /api/amazon-main` handler. The model covers its guard
  order, how it picks the image part out of the model's response, the
  near-white whitening pass, and its error responses;
- the copy helpers that depend on a count or an error;
- the `clamp` and `getStaggerDelay` animation helpers.

The processor loop is modelled as three mutually recursive functions,
`Top` / `PauseWait` / `Begin`, one per checkpoint of the `for` loop. They
are driven by a finite stream of signals. `Press(c)` is a call of `pause()`,
`resume()` or `cancel()` that lands during the current await. `Settle` ends
that await: the 100 ms timer fires or the request resolves. Each item's
request outcome is an `Exchange`: delivered, rejected with a body, or thrown.
`Resolve` maps each exchange to what `processSingleImage` resolves to, and
the loop runs over those results. A run returns the sequence of callbacks it fired. Every entry function
ensures that this trace equals an independent reference, `Shaped`: one
start/progress/outcome block per item processed, followed by the tally or
the pending await.

Modules, one per file: `Wrappers`, `Text` (number rendering and parsing),
`BatchTypes`, `QueueStore`, `BatchProcessor`, `ProcessorProofs`,
`QueueScreen`, `Routes`, `Copy`, `Animations`.

Behaviour of the code worth knowing:

- A successful retry leaves an earlier error message on the image. The store
  merges with `??`, and the retry passes no error. See `QueueScreen.RetryAsInQueue`.
- Unless the queue is paused, nothing can interleave "after item 0 completes,
  before item 1 starts": the loop does not await between those points. A
  cancel that stops an unpaused queue after the first item has to land while
  the first request is in flight. See `ProcessorProofs.CancelAfterFirstScenario`.
  A paused queue does await at exactly that point, in its pause wait, and a
  cancel landing there stops the queue before item 1 starts. See
  `ProcessorProofs.CancelReleasesPause`.
- Cancelling a paused queue clears the processor's pause flag but not the
  store's `isPaused`. See `QueueScreen.PausedFlagsInStep`.

## Model

| member | source | states |
|---|---|---|
| QueueStore.AddImages | client/contexts/BatchQueueContext.tsx:25-39 | new images are appended after the existing ones, in order, pending with no result and no error, with the given URIs; the flags and the index are unchanged |
| QueueStore.WithoutId | client/contexts/BatchQueueContext.tsx:44 | the filter keeps at most the images it was given, keeps exactly those with a different id, and is the identity when no image has the id |
| QueueStore.RemoveImage | client/contexts/BatchQueueContext.tsx:41-46 | an image survives iff it was present and has a different id; with no match the list is unchanged; the flags are unchanged |
| QueueStore.RemoveImageIdempotent | client/contexts/BatchQueueContext.tsx:41-46 | removing the same id twice is the same as removing it once |
| QueueStore.RemoveImageDropsExactlyMatches | client/contexts/BatchQueueContext.tsx:44 | the list shrinks by exactly the number of images carrying the id |
| QueueStore.Coalesce | client/contexts/BatchQueueContext.tsx:58 | `??`: a given value replaces the old one, an absent one keeps it |
| QueueStore.UpdateImageStatus | client/contexts/BatchQueueContext.tsx:48-62 | images with another id are untouched; matching images take the new status, and take the result and error only when they are given; length and flags are kept |
| QueueStore.UpdateNeverClears | client/contexts/BatchQueueContext.tsx:58 | an update never removes a result or an error that an image already had |
| QueueStore.UpdateIdempotent | client/contexts/BatchQueueContext.tsx:48-62 | applying the same update twice equals applying it once |
| QueueStore.UpdateAt | client/contexts/BatchQueueContext.tsx:56-60 | with distinct ids, updating by an image's id is a point update of that position |
| QueueStore.SetCurrentIndex | client/contexts/BatchQueueContext.tsx:64-66 | sets the index and nothing else |
| QueueStore.SetIsProcessing | client/contexts/BatchQueueContext.tsx:68-70 | sets the processing flag and nothing else |
| QueueStore.SetIsPaused | client/contexts/BatchQueueContext.tsx:72-74 | sets the paused flag and nothing else |
| QueueStore.ResetQueue | client/contexts/BatchQueueContext.tsx:76-83 | an empty queue at index 0, neither processing nor paused |
| QueueStore.ResetForgetsEverything | client/contexts/BatchQueueContext.tsx:76-83 | any two states reset to the same initial state |
| BatchProcessor.ErrorMessage | client/lib/batch-processor.ts:70-81 | a non-Error throw gives the generic message; an AbortError gives the timeout message; a message mentioning a network failure or TypeError gives the connection message; any other Error keeps its own message |
| BatchProcessor.ProcessSingleImage | client/lib/batch-processor.ts:25-88 | success iff the response was delivered, with its data URL and no error; otherwise no result and an error: the rejection body (or its fallback), or the thrown fault, classified |
| BatchProcessor.FailureText | client/lib/batch-processor.ts:131 | `error \|\| 'Unknown error'` is never empty and is the error whenever that is non-empty |
| BatchProcessor.ApplyAll | client/lib/batch-processor.ts:142-159 | the flags after a sequence of calls, each applied in order; what it means for the cancel flag is stated by `ProcessorProofs.ApplyAllCancelled` |
| BatchProcessor.Apply | client/lib/batch-processor.ts:142-159 | pause sets and resume clears the pause flag, leaving cancel alone; cancel sets the cancel flag and clears the pause flag |
| BatchProcessor.Await | client/lib/batch-processor.ts:110-111 | an await consumes the calls made before it settles; the cancel flag can only come on through a cancel call; a paused processor stays paused without resume or cancel |
| BatchProcessor.Top | client/lib/batch-processor.ts:103-107 | from the loop head, the trace matches the reference shape; stopping early means cancelled; cancelled means a cancel call was made |
| BatchProcessor.PauseWait | client/lib/batch-processor.ts:109-117 | from the pause wait, the trace matches the reference shape, with the same two cancellation facts |
| BatchProcessor.Begin | client/lib/batch-processor.ts:119-133 | from an item's callbacks and request, the trace matches the reference shape, with the same two cancellation facts |
| BatchProcessor.ProcessQueue | client/lib/batch-processor.ts:93-137 | a run starting with both flags clear fires the reference trace: full blocks for the items before its stopping index, then the tally or the pending await; it ends early only when cancelled, and only after a cancel call |
| BatchProcessor.Resolve | client/lib/batch-processor.ts:124 | one result per item, in queue order, each what `processSingleImage` resolves to for that item's exchange |
| ProcessorProofs.TraceAt | client/lib/batch-processor.ts:103-136 | the trace has three events per processed item plus one for the tally, two for an item in flight, or none while sleeping; each position holds the event the reference assigns |
| ProcessorProofs.StartsAscend | client/lib/batch-processor.ts:103-120 | every started index is in range, and starts are strictly ascending, so no item starts twice |
| ProcessorProofs.StartThenProgress | client/lib/batch-processor.ts:120-121 | every start is immediately followed by progress `(i + 1, total)` |
| ProcessorProofs.OneOutcomePerStart | client/lib/batch-processor.ts:120-132 | in a finished run every start is followed two events later by its item's outcome; every outcome is preceded by its start; outcomes are strictly ascending |
| ProcessorProofs.TallyOnceAtEnd | client/lib/batch-processor.ts:136 | the tally appears exactly once, as the last event, exactly when the run returned, and its counts are the successes and failures of the processed items |
| ProcessorProofs.WithoutCancelAllProcessed | client/lib/batch-processor.ts:103-136 | without a cancel call, a returned run went through every item in order |
| ProcessorProofs.CancelBeforeRunForgotten | client/lib/batch-processor.ts:97-98 | a cancel before the run starts has no effect, because the run clears both flags |
| ProcessorProofs.CancelObservedStopsAtTop | client/lib/batch-processor.ts:104-107 | a cancel seen at the loop head ends the run at once with the tally so far |
| ProcessorProofs.CancelDuringRequest | client/lib/batch-processor.ts:115-133 | a cancel while an item's request is in flight still records that item's outcome, then the run returns without starting another |
| ProcessorProofs.ApplyAllCancelled | client/lib/batch-processor.ts:156-159 | after a sequence of calls the cancel flag is set iff it was set or a cancel call was among them |
| ProcessorProofs.PausedStaysIdle | client/lib/batch-processor.ts:110-112 | while paused without resume or cancel, no callback fires and the index stays put |
| ProcessorProofs.CancelReleasesPause | client/lib/batch-processor.ts:110-117 | cancelling while paused ends the wait at the next tick and returns without starting the item |
| ProcessorProofs.ResumeContinuesAtSameIndex | client/lib/batch-processor.ts:110-121 | resuming continues with the very item the loop paused at |
| ProcessorProofs.UninterruptedFinishes | client/lib/batch-processor.ts:103-136 | with no control calls and every await settling, the run processes the whole queue and returns |
| ProcessorProofs.SettlesSuffice | client/lib/batch-processor.ts:103-136 | from any loop index, an unpaused processor whose stream has no pause call and can settle as many awaits as there are items left returns |
| ProcessorProofs.RunWithoutPauseReturns | client/lib/batch-processor.ts:93-136 | a queue run with no pause call and a settle for every request returns; without a cancel call it went through every item |
| ProcessorProofs.AllSucceedScenario | client/lib/batch-processor.ts:126-136 | three delivered images end with the tally (3, 0) |
| ProcessorProofs.TimeoutScenario | client/lib/batch-processor.ts:74-75 | a timeout on the middle of three items gives exactly the expected ten callbacks, with the timeout message and the tally (2, 1) |
| ProcessorProofs.CancelAfterFirstScenario | client/lib/batch-processor.ts:115-133 | a cancel during the first request: the first item completes, no other starts, tally (1, 0) |
| ProcessorProofs.AllFailScenario | client/lib/batch-processor.ts:125-136 | when every item resolves to the same failure, the run goes through the whole queue, every error event carries that failure's text, and the tally is (0, n) |
| ProcessorProofs.MissingConfigurationScenario | client/lib/batch-processor.ts:51-53 | when every request is rejected with the same body, every item fails with the same message and the tally is (0, n) |
| ProcessorProofs.ReadFailureReported | client/lib/batch-processor.ts:60-81 | when the returned image cannot be read, the item reports the reader's own message, unchanged by classification |
| ProcessorProofs.ReclassifyStable | client/lib/batch-processor.ts:70-81 | a classified message rethrown as a plain Error classifies to itself |
| ProcessorProofs.RejectionNeverBlank | client/lib/batch-processor.ts:51-53 | a rejection always carries a non-empty message, so the loop reports it unchanged |
| QueueScreen.OnEvent | client/screens/BatchQueueScreen.tsx:70-105 | one callback's updates: a start points at and shows the item and marks it processing; an outcome records it and hides the image; progress does nothing; the tally clears the busy flag and hides the image; its effect on a queue is stated by `QueueScreen.WiringOutcome` |
| QueueScreen.ApplyTrace | client/screens/BatchQueueScreen.tsx:69-105 | the callbacks keep every image's id, URI and timestamp, never touch the paused flag, and clear the processing flag iff a tally arrives |
| QueueScreen.StartProcessing | client/screens/BatchQueueScreen.tsx:66-106 | the store as the run's callbacks leave it: the image identities and the paused flag are kept, and the callbacks leave the screen busy exactly while the run has not returned |
| QueueScreen.WiringOutcome | client/screens/BatchQueueScreen.tsx:69-88 | after a run, the store as the callbacks leave it equals the reference result: items before the stopping index settled as the queue decided, the item in flight processing, the rest untouched; the index points at the last item started; the shown URI is the in-flight item's |
| QueueScreen.FreshRunConsistent | client/screens/BatchQueueScreen.tsx:69-82 | on a fresh queue, a result exactly for completed items and never empty, an error exactly for failed ones, processing only for the item in flight, pending exactly from the stopping index on |
| QueueScreen.CountIn | client/screens/BatchQueueScreen.tsx:330-332 | a filtered count is at most the range, is the whole range iff every status matches, and is zero iff none matches |
| QueueScreen.ProgressPercent | client/screens/BatchQueueScreen.tsx:342 | undefined iff there are no images; otherwise between 0 and 100, 100 iff every image is processed, 0 iff none is |
| QueueScreen.FreshRunCounts | client/screens/BatchQueueScreen.tsx:330-332 | on a fresh queue, the processed count is the number of items the run went through, and a finished run's tally equals the completed and failed counts on screen |
| QueueScreen.CompletionMessageAsWritten | client/screens/BatchQueueScreen.tsx:96-99 | the alert message as the screen spells it, garbled emoji included; compared with the copy by `QueueScreen.CompletionMessageGarbled` |
| QueueScreen.CompletionMessage | client/screens/BatchQueueScreen.tsx:96-99 | the same choice with the copy's text: the failures message when something failed, the all-success message otherwise; its meaning for a run is stated by `QueueScreen.CompletionMessageReportsFailures` |
| QueueScreen.CompletionMessageGarbled | client/screens/BatchQueueScreen.tsx:96-103 | the alert text equals the copy text when something failed, and differs from it when nothing did; the title always differs |
| QueueScreen.CompletionMessageReportsFailures | client/screens/BatchQueueScreen.tsx:96-99 | a finished run announces failures iff one of its items failed; otherwise the message counts every item it went through as ready |
| QueueScreen.HandlePause | client/screens/BatchQueueScreen.tsx:108-111 | both paused flags are set; the cancel flag and every other field of the store are unchanged |
| QueueScreen.HandleResume | client/screens/BatchQueueScreen.tsx:113-116 | both paused flags are cleared; the cancel flag and every other field of the store are unchanged |
| QueueScreen.HandleCancel | client/screens/BatchQueueScreen.tsx:128-132 | the processor is cancelled and unpaused; the store only stops processing, so images, index and its paused flag are kept; the current image is hidden |
| QueueScreen.PausedFlagsInStep | client/screens/BatchQueueScreen.tsx:108-140 | pause and resume keep the processor's and the store's paused flags in step; cancelling a paused queue makes them disagree |
| QueueScreen.HandleDone | client/screens/BatchQueueScreen.tsx:325-328 | the queue is emptied and idle; the shown image is untouched |
| QueueScreen.HandleDoneForgets | client/screens/BatchQueueScreen.tsx:325-328 | two screens that finish with different queues are left in the same state |
| QueueScreen.FindImage | client/screens/BatchQueueScreen.tsx:298 | none iff no image has the id; otherwise the first image carrying it |
| QueueScreen.HandleRetry | client/screens/BatchQueueScreen.tsx:297-323 | an unknown id changes nothing and raises no alert; a known one always ends with no current image and an alert |
| QueueScreen.RetryOutcome | client/screens/BatchQueueScreen.tsx:304-322 | once the request has resolved, the current image is cleared, an alert is raised, and the image count is kept |
| QueueScreen.RetrySettles | client/screens/BatchQueueScreen.tsx:300-322 | whatever the request resolves to, the image is updated to the outcome the queue would have recorded, no other image changes, and a success keeps an earlier error |
| QueueScreen.RetryAsInQueue | client/screens/BatchQueueScreen.tsx:297-323 | with distinct ids, a retry updates exactly that image to the outcome the queue would have recorded; a successful retry keeps an earlier error |
| QueueScreen.SaveAllCandidates | client/screens/BatchQueueScreen.tsx:210-211 | an image is a candidate iff it is completed, has a non-empty result and is not yet saved |
| QueueScreen.SaveAll | client/screens/BatchQueueScreen.tsx:209-295 | no candidates gives "already saved"; no permission saves nothing; otherwise the saved set grows by exactly the ids written, and the summary is "all" iff every write succeeded; a partial summary reports exactly the number of successful writes out of the candidates |
| QueueScreen.WrittenCount | client/screens/BatchQueueScreen.tsx:258-276 | the count of successful writes is at most the number tried, equals it iff every write succeeded, and is zero iff none did |
| QueueScreen.SaveAllExhausts | client/screens/BatchQueueScreen.tsx:258-277 | once every candidate is saved, a second save-all has no candidates |
| Routes.UploadMimeType | server/routes.ts:54 | never empty; the upload's own type when it has one |
| Routes.FirstInlinePart | server/routes.ts:78-81 | none iff no part has inline data; otherwise the first part that has it |
| Routes.ImageData | server/routes.ts:77-87 | a selected image is never empty |
| Routes.ImageDataFromFirstInlinePart | server/routes.ts:77-87 | the image is the data of the first inline part, or none; later parts are never consulted |
| Routes.NoPartsNoImage | server/routes.ts:77-83 | without a first candidate with parts, there is no image |
| Routes.NearWhite | server/routes.ts:118 | the pass's test: all three colour channels at least 250; a channel past the end fails it |
| Routes.WhitenPixel | server/routes.ts:113-121 | a pixel keeps its length |
| Routes.WhitenPixelMeaning | server/routes.ts:118-121 | a pixel whose three colour channels are all at least 250 has them set to 255 and keeps its other bytes; any other pixel is unchanged |
| Routes.WhitenPixelBrightens | server/routes.ts:118-121 | no byte of a pixel decreases, near-whiteness is kept exactly, and whitening a pixel twice equals whitening it once |
| Routes.Whiten | server/routes.ts:112-122 | the loop produces the whitened buffer and keeps its length |
| Routes.WhitenedMeaning | server/routes.ts:112-122 | at every pixel boundary, near-white colour channels end at 255, other pixels and the non-colour channels are unchanged |
| Routes.WhitenNeverDecreases | server/routes.ts:117-121 | whitening never darkens a byte |
| Routes.WhitenIdempotent | server/routes.ts:112-122 | a second whitening pass changes nothing |
| Routes.FailureResponse | server/routes.ts:136-143 | a thrown failure gives status 500 with the prefix and the error's message, or "Unknown error" for a non-Error |
| Routes.Handle | server/routes.ts:36-143 | no file gives 400 before anything else; no configuration gives 500 and no model call; the model is called iff both guards pass; after the guards, a throw from the model, the normalisation or the encoding gives that failure's 500 response, a reply with no image gives the no-image error, and a successful pipeline gives the JPEG attachment of the encoded whitened raster; an attachment comes only from such a pipeline |
| Routes.GuardsPrecedeWork | server/routes.ts:38-50 | when a guard stops the request, the model and image library make no difference and the model is not called |
| Routes.ErrorResponsesExplained | server/routes.ts:38-143 | every error response carries one of the three guard messages or the failure prefix |
| Routes.MissingImageIsReported | server/routes.ts:83-87 | a response with no usable image part gives the no-image error whatever follows |
| Copy.SelectionTitle | client/constants/copy.ts:101-106 | the selection title for a count; what it states is given by `Copy.SelectionTitleNamesCount`, `Copy.SelectionTitleWording` and `Copy.SelectionTitleMaxMarker` |
| Copy.SelectionTitleWording | client/constants/copy.ts:103-105 | after the rendered count, one photo reads " photo loaded! " with the palette, two to nine read " photos loaded! " with the palette, and ten or more read " photos loaded! (max) " with the fire |
| Copy.SelectionTitleNamesCount | client/constants/copy.ts:101-106 | zero gives "No images selected"; any positive count can be read back from the start of the title |
| Copy.SelectionTitleMaxMarker | client/constants/copy.ts:101-106 | the "(max)" title appears iff the count is ten or more |
| Copy.ProcessedImages | client/constants/copy.ts:122-123 | the processed-images heading; `Copy.ProcessedImagesRoundTrip` states that both counts read back from it |
| Copy.ProcessedImagesRoundTrip | client/constants/copy.ts:122-123 | both counts can be read back from the heading |
| Copy.AllSuccess | client/constants/copy.ts:138 | the all-success completion message for a count |
| Copy.WithFailures | client/constants/copy.ts:139-140 | the completion message naming the ready and the failed counts |
| Copy.RetryFailedMessage | client/constants/copy.ts:171 | never empty; the error when it is non-empty, the default otherwise |
| Copy.Find | client/constants/copy.ts:243 | found iff the count is in the list, and then it is the count |
| Copy.GetMilestone | client/constants/copy.ts:241-245 | a milestone iff the count is a key of the milestone table, and then that entry |
| Copy.FormatCount | client/constants/copy.ts:250-254 | a count with its word; what it states is given by `Copy.FormatCountStatesCount` |
| Copy.FormatCountStatesCount | client/constants/copy.ts:250-254 | zero gives "No" and the plural; the word is singular only for one; a positive count can be read back from the start |
| Animations.Clamp | client/lib/animations.ts:286-288 | never above max; not below min when the range is non-empty; a value inside is unchanged; below gives min, above gives max; an empty range gives max |
| Animations.ClampIdempotent | client/lib/animations.ts:286-288 | clamping twice equals clamping once |
| Animations.ClampMonotone | client/lib/animations.ts:286-288 | clamping preserves order |
| Animations.StaggerDelay | client/lib/animations.ts:265-267 | the delay of an item, its index times the base delay; its ordering is stated by `Animations.StaggerDelayOrdered` |
| Animations.DefaultStaggerSpacing | client/lib/animations.ts:265-267 | with the default base delay of 50 ms, the first item starts at once, delays never decrease, and consecutive items are 50 ms apart |
| Animations.StaggerDelayOrdered | client/lib/animations.ts:265-267 | the first item has no delay, delays never decrease with the index, and consecutive items are one base delay apart |

## Left out

- Network, file reading, timers, the media library, the file system, alerts' platform checks, confetti, navigation and the image library (`sharp`) are not modelled. They are parameters of the model (`Exchange`, `Signal`, `generate` / `normalize` / `encode`, the `written` flags of save-all) or they are omitted.
- The 120-second request timeout: a clock, so it appears only through its effect, a thrown `AbortError`.
- Image id generation (`Date.now()` and `Math.random()`) is not modelled. `AddImages` takes the ids as an argument.
- The processor's `isPausedState` / `isCancelledState` getters are not modelled. `Run.processor` exposes the same flags.
- `onProgress` has an empty body in the screen; it is modelled as a no-op.
- QueueScreen.StartProcessing: requires as many URIs and results as images in the store. The callbacks index `state.images[index]` in the snapshot taken when processing started. If that snapshot is shorter than the URI list, a callback throws. If it is longer, nothing throws and the callbacks update the first images of the snapshot, which may not be the ones being processed. Neither case is modelled.
- QueueScreen.StartProcessing: the stream's `Press` signals change only the processor's flags. The pause, resume and cancel buttons that press them also update the store at that moment: `handlePause` and `handleResume` set its `isPaused`, and a confirmed cancel clears `isProcessing` and the shown image. Those updates are not composed into the run, so `StartProcessing` and `QueueScreen.WiringOutcome` describe the store as the callbacks alone leave it. For example, a stream that presses Cancel before the first request settles leaves the real screen idle with no image shown, while the model keeps it busy and showing the first image. `HandlePause`, `HandleResume` and `HandleCancel` model those store updates as steps on their own.
- QueueScreen.WiringOutcome: states the store as the run's callbacks leave it; the store updates of the pause, resume and cancel handlers pressed during the run are left out, as the line above explains.
- QueueScreen.HandleRetry: modelled as a step on its own, between runs. The Retry button is shown for every failed image, even while the queue is running, so a retry can overlap a queue run. Its request is then in flight at the same time as the queue's, and its `setCurrentImageUri(null)` hides the queue's current image in the middle of an item. That interleaving is not modelled.
- Routes.WhitenPixel: rasters have at least three channels (`Raster`). A one- or two-channel raster, where the loop reads past a pixel, is not modelled.
- Routes.Handle: the handler's log line and the response headers as Express sets them are reduced to a `Response` value.
- The per-image `handleSave`, the permission re-request dialog and the outer catch of save-all are not modelled. `SaveAll` takes the permission answer as `granted`.
- JavaScript numbers are modelled as exact reals in `Animations` and `ProgressPercent`. Rounding is not modelled, and the `NaN` of an empty queue is modelled as `None`.
- `randomBetween`, `lerp`, the confetti colours and the other animation constants are not modelled.
- The other screens and UI components are not modelled.
- The other alerts of the batch queue screen are garbled in the same way as the completion alert (save-all, the header title). Only the completion alert is modelled as written.

## Findings

| source | as written | input that shows it | evidently intended | confidence | as-written member | corrected member |
|---|---|---|---|---|---|---|
| client/screens/BatchQueueScreen.tsx:99-102 | the completion title and the all-success message spell the emoji as their UTF-8 bytes read as Windows-1252 (`ðŸ”¥ðŸŽ‰`) | a run with no failures, e.g. three delivered images | the 🔥🎉 and 🎉 of the completion copy | medium, not executed | QueueScreen.CompletionMessageGarbled | QueueScreen.CompletionMessageReportsFailures |

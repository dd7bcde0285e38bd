/** The batch processor (client/lib/batch-processor.ts): the classification of a
    single request's outcome into a result, and the sequential queue loop with
    its cooperative pause / resume / cancel flags.

    The loop is asynchronous in the app; it only yields at two kinds of await:
    the in-flight request of the current item and each 100 ms sleep of the
    pause wait. Everything the outside world can do happens during such an
    await, so a run is driven by a finite stream of signals: `Press(c)` is a
    call of `pause()`, `resume()` or `cancel()`, and `Settle` ends the current
    await (the timer fires or the request resolves). What each item's
    `processSingleImage` call resolves to is given separately, one result per
    item (`Resolve` computes them from the network exchanges). When the stream
    runs out while the loop is awaiting, the run is still suspended there. */
module BatchProcessor {
  import opened Wrappers
  import Text

  // ---------------------------------------------------------------------------
  // One request

  /** How one request went, at the network boundary. */
  datatype Exchange =
    | Delivered(dataUrl: string)  // OK response, body read as a data URL
    | Rejected(bodyText: string)  // non-OK response with this body text
    | Raised(fault: Fault)        // fetch, the timeout abort or the body read threw

  /** What `processSingleImage` resolves to. */
  datatype ProcessImageResult = ProcessImageResult(success: bool, resultUri: Option<string>, error: Option<string>)

  const TimeoutMessage := "Request timed out. Please try again."
  /** The connection-failure message, as its two sentences. */
  const ConnectionFront := "Unable to connect to server."
  const ConnectionBack := " Please check your connection."
  const ConnectionMessage := ConnectionFront + ConnectionBack
  const UnexpectedMessage := "An unexpected error occurred"
  const RejectedFallback := "Failed to process image"
  const ReadFailedMessage := "Failed to read processed image"
  const UnknownError := "Unknown error"

  /** The user-facing message for a caught exception. */
  function ErrorMessage(f: Fault): (m: string)
    ensures f.NonErrorValue? ==> m == UnexpectedMessage
    ensures f.ErrorObject? && f.name == "AbortError" ==> m == TimeoutMessage
    ensures f.ErrorObject? && f.name != "AbortError"
            && (Text.Contains(f.message, "Network request failed") || Text.Contains(f.message, "TypeError"))
            ==> m == ConnectionMessage
    ensures f.ErrorObject? && f.name != "AbortError"
            && !Text.Contains(f.message, "Network request failed") && !Text.Contains(f.message, "TypeError")
            ==> m == f.message
  {
    match f
    case NonErrorValue => UnexpectedMessage
    case ErrorObject(name, message) =>
      if name == "AbortError" then TimeoutMessage
      else if Text.Contains(message, "Network request failed") || Text.Contains(message, "TypeError") then ConnectionMessage
      else message
  }

  /** The `Error` thrown for a non-OK response: its body text, or a fixed
      fallback when the body is empty. */
  function RejectionFault(bodyText: string): Fault {
    ErrorObject("Error", if bodyText == "" then RejectedFallback else bodyText)
  }

  function ProcessSingleImage(x: Exchange): (r: ProcessImageResult)
    ensures r.success <==> x.Delivered?
    ensures x.Delivered? ==> r.resultUri == Some(x.dataUrl) && r.error.None?
    ensures !x.Delivered? ==> r.resultUri.None? && r.error.Some?
    ensures x.Rejected? ==> r.error.value == ErrorMessage(RejectionFault(x.bodyText))
    ensures x.Raised? ==> r.error.value == ErrorMessage(x.fault)
  {
    match x
    case Delivered(url) => ProcessImageResult(true, Some(url), None)
    case Rejected(text) => ProcessImageResult(false, None, Some(ErrorMessage(RejectionFault(text))))
    case Raised(f) => ProcessImageResult(false, None, Some(ErrorMessage(f)))
  }

  /** What `processSingleImage` resolves to for each item of a queue, in
      order. */
  function Resolve(replies: seq<Exchange>): (results: seq<ProcessImageResult>)
    ensures |results| == |replies|
    ensures forall j | 0 <= j < |replies| :: results[j] == ProcessSingleImage(replies[j])
  {
    seq(|replies|, j requires 0 <= j < |replies| => ProcessSingleImage(replies[j]))
  }

  /** The loop's success test `result.success && result.resultUri`: an empty
      URI is falsy. */
  predicate Succeeded(r: ProcessImageResult) {
    r.success && r.resultUri.Some? && r.resultUri.value != ""
  }

  /** `result.error || 'Unknown error'`. */
  function FailureText(r: ProcessImageResult): (m: string)
    ensures m != ""
    ensures r.error.Some? && r.error.value != "" ==> m == r.error.value
  {
    if r.error.Some? && r.error.value != "" then r.error.value else UnknownError
  }

  // ---------------------------------------------------------------------------
  // The cooperative flags

  datatype Processor = Processor(isPaused: bool, isCancelled: bool)

  datatype Control = PauseCall | ResumeCall | CancelCall

  /** The effect of one control call on the flags. */
  function Apply(p: Processor, c: Control): (q: Processor)
    ensures c == PauseCall ==> q.isPaused && q.isCancelled == p.isCancelled
    ensures c == ResumeCall ==> !q.isPaused && q.isCancelled == p.isCancelled
    ensures c == CancelCall ==> !q.isPaused && q.isCancelled
  {
    match c
    case PauseCall => p.(isPaused := true)
    case ResumeCall => p.(isPaused := false)
    case CancelCall => Processor(false, true)
  }

  // ---------------------------------------------------------------------------
  // The queue loop

  datatype Signal = Press(c: Control) | Settle

  datatype Event =
    | ImageStart(index: nat)
    | Progress(current: nat, total: nat)
    | ImageComplete(index: nat, resultUri: string)
    | ImageError(index: nat, error: string)
    | QueueComplete(successCount: nat, failureCount: nat)

  /** Where a run stands: it returned, or it is still awaiting a pause-wait
      timer or an item's request. */
  datatype Halt = Done | Sleeping | InFlight

  /** A run: the callbacks fired, where it stands, the flags, and the loop
      index `i` at that point. */
  datatype Run = Run(trace: seq<Event>, halt: Halt, processor: Processor, index: nat)

  /** The flags after a sequence of signals; `Settle` does not touch them. */
  function ApplyAll(p: Processor, s: seq<Signal>): Processor
    decreases |s|
  {
    if |s| == 0 then p
    else ApplyAll(if s[0].Press? then Apply(p, s[0].c) else p, s[1..])
  }

  datatype Wake = Wake(p: Processor, rest: seq<Signal>, settled: bool)

  /** One await: control calls land until the awaited thing settles. */
  function Await(p: Processor, s: seq<Signal>): (w: Wake)
    ensures w.settled ==> |w.rest| < |s|
    ensures !w.settled ==> w.rest == []
    ensures forall x | x in w.rest :: x in s
    ensures w.p.isCancelled ==> p.isCancelled || Press(CancelCall) in s
    ensures p.isPaused && Press(ResumeCall) !in s && Press(CancelCall) !in s ==> w.p.isPaused
    decreases |s|
  {
    if |s| == 0 then Wake(p, [], false)
    else match s[0]
      case Settle => Wake(p, s[1..], true)
      case Press(c) =>
        var w := Await(Apply(p, c), s[1..]);
        assert forall x | x in s[1..] :: x in s;
        w
  }

  /** The callback item `j` fires once `processSingleImage` has resolved to
      `results[j]`. */
  function ItemEvent(results: seq<ProcessImageResult>, j: nat): Event
    requires j < |results|
  {
    var r := results[j];
    if Succeeded(r) then ImageComplete(j, r.resultUri.value) else ImageError(j, FailureText(r))
  }

  function SuccessIncrement(results: seq<ProcessImageResult>, j: nat): nat
    requires j < |results|
  {
    if Succeeded(results[j]) then 1 else 0
  }

  /** Reference trace of items `i .. k-1` processed back to back. */
  function Blocks(results: seq<ProcessImageResult>, i: nat, k: nat): seq<Event>
    requires i <= k <= |results|
    decreases k - i
  {
    if i == k then []
    else [ImageStart(i), Progress(i + 1, |results|), ItemEvent(results, i)] + Blocks(results, i + 1, k)
  }

  /** The number of items among `i .. k-1` whose request succeeds. */
  function Successes(results: seq<ProcessImageResult>, i: nat, k: nat): nat
    requires i <= k <= |results|
    decreases k - i
  {
    if i == k then 0 else SuccessIncrement(results, i) + Successes(results, i + 1, k)
  }

  /** The number of items among `i .. k-1` whose request fails. */
  function Failures(results: seq<ProcessImageResult>, i: nat, k: nat): nat
    requires i <= k <= |results|
    decreases k - i
  {
    if i == k then 0 else (1 - SuccessIncrement(results, i)) + Failures(results, i + 1, k)
  }

  /** What follows the completed items: the final tally, nothing (asleep), or
      the start of the item whose request is outstanding. */
  function Ending(results: seq<ProcessImageResult>, halt: Halt, k: nat, succ: nat, fail: nat): seq<Event>
    requires k <= |results|
  {
    match halt
    case Done => [QueueComplete(succ, fail)]
    case Sleeping => []
    case InFlight => if k < |results| then [ImageStart(k), Progress(k + 1, |results|)] else []
  }

  /** Reference shape of any run from loop index `i` with tallies so far. */
  predicate Shaped(results: seq<ProcessImageResult>, i: nat, succ: nat, fail: nat, r: Run)
    requires i <= |results|
  {
    && i <= r.index <= |results|
    && (!r.halt.Done? ==> r.index < |results|)
    && r.trace == Blocks(results, i, r.index)
                  + Ending(results, r.halt, r.index,
                           succ + Successes(results, i, r.index),
                           fail + Failures(results, i, r.index))
  }

  /** The loop top: `i < imageUris.length`, then the first cancel checkpoint. */
  function Top(results: seq<ProcessImageResult>, i: nat, p: Processor, succ: nat, fail: nat, s: seq<Signal>): (r: Run)
    requires i <= |results|
    ensures Shaped(results, i, succ, fail, r)
    ensures r.halt.Done? && r.index < |results| ==> r.processor.isCancelled
    ensures r.processor.isCancelled ==> p.isCancelled || Press(CancelCall) in s
    decreases |s|, |results| - i, 2
  {
    if i == |results| || p.isCancelled then Run([QueueComplete(succ, fail)], Done, p, i)
    else PauseWait(results, i, p, succ, fail, s)
  }

  /** The pause wait (`while (isPaused && !isCancelled) sleep`) and the second
      cancel checkpoint after it. */
  function PauseWait(results: seq<ProcessImageResult>, i: nat, p: Processor, succ: nat, fail: nat, s: seq<Signal>): (r: Run)
    requires i < |results|
    ensures Shaped(results, i, succ, fail, r)
    ensures r.halt.Done? && r.index < |results| ==> r.processor.isCancelled
    ensures r.processor.isCancelled ==> p.isCancelled || Press(CancelCall) in s
    decreases |s|, |results| - i, 1
  {
    if p.isPaused && !p.isCancelled then
      var w := Await(p, s);
      if !w.settled then Run([], Sleeping, w.p, i)
      else PauseWait(results, i, w.p, succ, fail, w.rest)
    else if p.isCancelled then Run([QueueComplete(succ, fail)], Done, p, i)
    else Begin(results, i, p, succ, fail, s)
  }

  /** Item `i`: start and progress callbacks, the request, then exactly one of
      the complete / error callbacks, and back to the loop top. */
  function Begin(results: seq<ProcessImageResult>, i: nat, p: Processor, succ: nat, fail: nat, s: seq<Signal>): (r: Run)
    requires i < |results|
    ensures Shaped(results, i, succ, fail, r)
    ensures r.halt.Done? && r.index < |results| ==> r.processor.isCancelled
    ensures r.processor.isCancelled ==> p.isCancelled || Press(CancelCall) in s
    decreases |s|, |results| - i, 0
  {
    var head := [ImageStart(i), Progress(i + 1, |results|)];
    var w := Await(p, s);
    if !w.settled then Run(head, InFlight, w.p, i)
    else
      var ok := Succeeded(results[i]);
      var next := Top(results, i + 1, w.p, if ok then succ + 1 else succ, if ok then fail else fail + 1, w.rest);
      ShapedStep(results, i, succ, fail, next);
      Run(head + [ItemEvent(results, i)] + next.trace, next.halt, next.processor, next.index)
  }

  /** Prefixing one settled item to a run shaped from `i + 1` gives a run
      shaped from `i`. */
  lemma ShapedStep(results: seq<ProcessImageResult>, i: nat, succ: nat, fail: nat, next: Run)
    requires i < |results|
    requires Shaped(results, i + 1, succ + SuccessIncrement(results, i), fail + (1 - SuccessIncrement(results, i)), next)
    ensures Shaped(results, i, succ, fail,
                   Run([ImageStart(i), Progress(i + 1, |results|)] + [ItemEvent(results, i)] + next.trace,
                       next.halt, next.processor, next.index))
  {
    var k := next.index;
    var block := [ImageStart(i), Progress(i + 1, |results|), ItemEvent(results, i)];
    assert Blocks(results, i, k) == block + Blocks(results, i + 1, k);
    assert [ImageStart(i), Progress(i + 1, |results|)] + [ItemEvent(results, i)] == block;
    var tail := Ending(results, next.halt, k, succ + Successes(results, i, k), fail + Failures(results, i, k));
    assert next.trace == Blocks(results, i + 1, k) + tail;
    assert block + (Blocks(results, i + 1, k) + tail) == (block + Blocks(results, i + 1, k)) + tail;
  }

  /** `processQueue`: both flags are cleared on entry, whatever they were. */
  function ProcessQueue(p: Processor, uris: seq<string>, results: seq<ProcessImageResult>, s: seq<Signal>): (r: Run)
    requires |results| == |uris|
    ensures Shaped(results, 0, 0, 0, r)
    ensures r.halt.Done? && r.index < |uris| ==> r.processor.isCancelled
    ensures r.processor.isCancelled ==> Press(CancelCall) in s
  {
    Top(results, 0, Processor(false, false), 0, 0, s)
  }
}

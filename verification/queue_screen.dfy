/** How the batch queue screen (client/screens/BatchQueueScreen.tsx) wires
    the processor's callbacks into the queue store, and the screen's own
    handlers and derived values. The callbacks close over the screen's
    `state` and `imageUris` as they were when processing started: an item
    index is mapped to an image id through that snapshot. */
module QueueScreen {
  import opened Wrappers
  import opened BatchTypes
  import opened QueueStore
  import opened BatchProcessor
  import Text
  import Copy

  /** The store together with the screen's own `currentImageUri`. */
  datatype View = View(store: BatchQueueState, current: Option<string>)

  /** An event that names an item names one of the `n` items. */
  predicate Names(e: Event, n: nat) {
    match e
    case ImageStart(i) => i < n
    case ImageComplete(i, _) => i < n
    case ImageError(i, _) => i < n
    case _ => true
  }

  predicate AllNamed(t: seq<Event>, n: nat) {
    forall k | 0 <= k < |t| :: Names(t[k], n)
  }

  /** The store updates one callback makes; `ids` is the id snapshot. */
  function OnEvent(v: View, uris: seq<string>, ids: seq<string>, e: Event): View
    requires |ids| == |uris| && Names(e, |ids|)
  {
    match e
    case ImageStart(i) =>
      View(UpdateImageStatus(SetCurrentIndex(v.store, i), ids[i], Processing, None, None), Some(uris[i]))
    case Progress(_, _) => v
    case ImageComplete(i, uri) => View(UpdateImageStatus(v.store, ids[i], Completed, Some(uri), None), None)
    case ImageError(i, err) => View(UpdateImageStatus(v.store, ids[i], Failed, None, Some(err)), None)
    case QueueComplete(_, _) => View(SetIsProcessing(v.store, false), None)
  }

  /** The view after a sequence of callbacks. Callbacks keep every image's
      identity, never touch `isPaused`, and only the final tally clears
      `isProcessing`. */
  function ApplyTrace(v: View, uris: seq<string>, ids: seq<string>, t: seq<Event>): (r: View)
    requires |ids| == |uris| && AllNamed(t, |ids|)
    ensures |r.store.images| == |v.store.images|
    ensures forall k | 0 <= k < |v.store.images| ::
      && r.store.images[k].id == v.store.images[k].id
      && r.store.images[k].originalUri == v.store.images[k].originalUri
      && r.store.images[k].timestamp == v.store.images[k].timestamp
    ensures r.store.isPaused == v.store.isPaused
    ensures r.store.isProcessing == (v.store.isProcessing && forall k | 0 <= k < |t| :: !t[k].QueueComplete?)
    decreases |t|
  {
    if |t| == 0 then v
    else
      assert forall k | 0 <= k < |t| - 1 :: t[1..][k] == t[k + 1];
      ApplyTrace(OnEvent(v, uris, ids, t[0]), uris, ids, t[1..])
  }

  /** `startProcessing`: set `isProcessing`, then run the queue with the
      callbacks above. */
  function StartProcessing(v: View, uris: seq<string>, results: seq<ProcessImageResult>, s: seq<Signal>): (r: View)
    requires |results| == |uris| == |v.store.images|
    ensures |r.store.images| == |v.store.images|
    ensures forall k | 0 <= k < |v.store.images| :: r.store.images[k].id == v.store.images[k].id
    ensures r.store.isPaused == v.store.isPaused
    ensures r.store.isProcessing <==> !ProcessQueue(Processor(false, false), uris, results, s).halt.Done?
  {
    var run := ProcessQueue(Processor(false, false), uris, results, s);
    TraceFacts(results, run);
    ApplyTrace(View(SetIsProcessing(v.store, true), v.current), uris, Ids(v.store.images), run.trace)
  }

  // ---------------------------------------------------------------------------
  // What a run does to the store

  /** The record an item ends with once `processSingleImage` has resolved
      to `res`. */
  function Outcome(img: BatchImage, res: ProcessImageResult): BatchImage {
    if Succeeded(res) then img.(status := Completed, resultUri := res.resultUri)
    else img.(status := Failed, error := Some(FailureText(res)))
  }

  /** Items `i .. k-1` settled, the others as they were. */
  function Settled(images: seq<BatchImage>, results: seq<ProcessImageResult>, i: nat, k: nat): seq<BatchImage>
    requires |images| == |results|
  {
    seq(|images|, j requires 0 <= j < |images| => if i <= j < k then Outcome(images[j], results[j]) else images[j])
  }

  /** Reference result of a run on the store: the items before the stopping
      index settled, the item in flight (if any) processing, the rest as they
      were. */
  function Expected(images: seq<BatchImage>, results: seq<ProcessImageResult>, run: Run): seq<BatchImage>
    requires |images| == |results|
  {
    seq(|images|, j requires 0 <= j < |images| =>
      if j < run.index then Outcome(images[j], results[j])
      else if j == run.index && run.halt.InFlight? then images[j].(status := Processing)
      else images[j])
  }

  /** No reference event is a tally except the one a finished run ends with,
      and every event names an existing item. */
  lemma TraceFacts(results: seq<ProcessImageResult>, run: Run)
    requires Shaped(results, 0, 0, 0, run)
    ensures AllNamed(run.trace, |results|)
    ensures (forall k | 0 <= k < |run.trace| :: !run.trace[k].QueueComplete?) <==> !run.halt.Done?
  {
    var b := Blocks(results, 0, run.index);
    var e := Ending(results, run.halt, run.index, Successes(results, 0, run.index), Failures(results, 0, run.index));
    BlocksFacts(results, 0, run.index);
    EndingFacts(results, run.halt, run.index, Successes(results, 0, run.index), Failures(results, 0, run.index));
    TraceConcatFacts(b, e, |results|);
  }

  /** The events after the last settled item name existing items, and hold a
      tally exactly when the run finished. */
  lemma EndingFacts(results: seq<ProcessImageResult>, halt: Halt, k: nat, succ: nat, fail: nat)
    requires k <= |results|
    ensures AllNamed(Ending(results, halt, k, succ, fail), |results|)
    ensures var e := Ending(results, halt, k, succ, fail);
      (forall a | 0 <= a < |e| :: !e[a].QueueComplete?) <==> !halt.Done?
  {
    if halt.Done? {
      assert Ending(results, halt, k, succ, fail)[0].QueueComplete?;
    }
  }

  /** Both facts carry over to a trace made of a tally-free head and a tail. */
  lemma TraceConcatFacts(b: seq<Event>, e: seq<Event>, n: nat)
    requires AllNamed(b, n) && AllNamed(e, n)
    requires forall a | 0 <= a < |b| :: !b[a].QueueComplete?
    ensures AllNamed(b + e, n)
    ensures (forall a | 0 <= a < |b + e| :: !(b + e)[a].QueueComplete?)
        <==> (forall a | 0 <= a < |e| :: !e[a].QueueComplete?)
  {
    assert forall a | 0 <= a < |e| :: (b + e)[|b| + a] == e[a];
  }

  lemma {:induction false} BlocksFacts(results: seq<ProcessImageResult>, i: nat, k: nat)
    requires i <= k <= |results|
    ensures AllNamed(Blocks(results, i, k), |results|)
    ensures forall a | 0 <= a < |Blocks(results, i, k)| :: !Blocks(results, i, k)[a].QueueComplete?
    decreases k - i
  {
    if i < k {
      BlocksFacts(results, i + 1, k);
      var block := [ImageStart(i), Progress(i + 1, |results|), ItemEvent(results, i)];
      var rest := Blocks(results, i + 1, k);
      assert Blocks(results, i, k) == block + rest;
      assert forall a | 3 <= a < |block + rest| :: (block + rest)[a] == rest[a - 3];
    }
  }

  lemma {:induction false} ApplyTraceConcat(v: View, uris: seq<string>, ids: seq<string>, a: seq<Event>, b: seq<Event>)
    requires |ids| == |uris| && AllNamed(a, |ids|) && AllNamed(b, |ids|)
    ensures AllNamed(a + b, |ids|)
    ensures ApplyTrace(v, uris, ids, a + b) == ApplyTrace(ApplyTrace(v, uris, ids, a), uris, ids, b)
    decreases |a|
  {
    assert forall k | 0 <= k < |a + b| :: (a + b)[k] == if k < |a| then a[k] else b[k - |a|];
    if |a| > 0 {
      assert (a + b)[1..] == a[1..] + b;
      assert forall k | 0 <= k < |a| - 1 :: a[1..][k] == a[k + 1];
      ApplyTraceConcat(OnEvent(v, uris, ids, a[0]), uris, ids, a[1..], b);
    } else {
      assert a + b == b;
    }
  }

  /** `onImageStart`: point at item `i`, show it, and mark it processing. */
  lemma StartStep(v: View, uris: seq<string>, ids: seq<string>, i: nat)
    requires |ids| == |uris| == |v.store.images|
    requires DistinctIds(v.store.images) && Ids(v.store.images) == ids
    requires i < |ids|
    ensures OnEvent(v, uris, ids, ImageStart(i))
         == View(v.store.(images := v.store.images[i := Patched(v.store.images[i], Processing, None, None)], currentIndex := i),
                 Some(uris[i]))
  {
    UpdateAt(SetCurrentIndex(v.store, i), i, Processing, None, None);
  }

  /** The outcome callback of item `i`, on a record the start callback has
      marked processing. */
  lemma OutcomeStep(w: View, uris: seq<string>, ids: seq<string>, results: seq<ProcessImageResult>, i: nat, img: BatchImage)
    requires |ids| == |uris| == |results| == |w.store.images|
    requires DistinctIds(w.store.images) && Ids(w.store.images) == ids
    requires i < |ids| && w.store.images[i] == Patched(img, Processing, None, None)
    ensures Names(ItemEvent(results, i), |ids|)
    ensures OnEvent(w, uris, ids, ItemEvent(results, i))
         == View(w.store.(images := w.store.images[i := Outcome(img, results[i])]), None)
  {
    var res := results[i];
    if Succeeded(res) {
      UpdateAt(w.store, i, Completed, res.resultUri, None);
    } else {
      UpdateAt(w.store, i, Failed, None, Some(FailureText(res)));
    }
  }

  /** Two image lists with the same ids at every position. */
  predicate SameIds(a: seq<BatchImage>, b: seq<BatchImage>) {
    |a| == |b| && forall j | 0 <= j < |a| :: a[j].id == b[j].id
  }

  lemma SameIdsKeepDistinct(a: seq<BatchImage>, b: seq<BatchImage>)
    requires SameIds(a, b) && DistinctIds(a)
    ensures DistinctIds(b) && Ids(b) == Ids(a)
  {
  }

  lemma ApplyTraceCons(v: View, uris: seq<string>, ids: seq<string>, t: seq<Event>)
    requires |ids| == |uris| && AllNamed(t, |ids|) && |t| > 0
    ensures Names(t[0], |ids|) && AllNamed(t[1..], |ids|)
    ensures ApplyTrace(v, uris, ids, t) == ApplyTrace(OnEvent(v, uris, ids, t[0]), uris, ids, t[1..])
  {
  }

  /** Item `i`'s three callbacks (`block`) turn its record into its outcome
      and leave no current image. */
  lemma ApplyBlock(v: View, uris: seq<string>, ids: seq<string>, results: seq<ProcessImageResult>, i: nat, block: seq<Event>)
    requires |ids| == |uris| == |results| == |v.store.images|
    requires DistinctIds(v.store.images) && Ids(v.store.images) == ids
    requires i < |results|
    requires block == [ImageStart(i), Progress(i + 1, |results|), ItemEvent(results, i)]
    ensures AllNamed(block, |ids|)
    ensures ApplyTrace(v, uris, ids, block)
         == View(v.store.(images := v.store.images[i := Outcome(v.store.images[i], results[i])], currentIndex := i), None)
  {
    var img := v.store.images[i];
    assert Names(block[2], |ids|);
    assert AllNamed(block, |ids|);
    StartStep(v, uris, ids, i);
    var v1 := OnEvent(v, uris, ids, block[0]);
    assert SameIds(v.store.images, v1.store.images);
    SameIdsKeepDistinct(v.store.images, v1.store.images);
    OutcomeStep(v1, uris, ids, results, i, img);
    var v3 := OnEvent(v1, uris, ids, block[2]);
    ApplyTraceCons(v, uris, ids, block);
    var tail := block[1..];
    assert tail == [block[1], block[2]];
    ApplyTraceCons(v1, uris, ids, tail);
    var last := tail[1..];
    assert last == [block[2]];
    ApplyTraceCons(v1, uris, ids, last);
    assert last[1..] == [];
  }

  lemma {:induction false} ApplyBlocks(v: View, uris: seq<string>, ids: seq<string>, results: seq<ProcessImageResult>, i: nat, k: nat)
    requires |ids| == |uris| == |results| == |v.store.images|
    requires DistinctIds(v.store.images) && Ids(v.store.images) == ids
    requires i <= k <= |results|
    ensures AllNamed(Blocks(results, i, k), |ids|)
    ensures ApplyTrace(v, uris, ids, Blocks(results, i, k))
         == if i == k then v
            else View(v.store.(images := Settled(v.store.images, results, i, k), currentIndex := k - 1), None)
    decreases k - i
  {
    BlocksFacts(results, i, k);
    if i < k {
      var block := [ImageStart(i), Progress(i + 1, |results|), ItemEvent(results, i)];
      ApplyBlock(v, uris, ids, results, i, block);
      var w := View(v.store.(images := v.store.images[i := Outcome(v.store.images[i], results[i])], currentIndex := i), None);
      assert Ids(w.store.images) == ids;
      assert DistinctIds(w.store.images) by {
        assert forall j | 0 <= j < |w.store.images| :: w.store.images[j].id == v.store.images[j].id;
      }
      BlocksFacts(results, i + 1, k);
      ApplyTraceConcat(v, uris, ids, block, Blocks(results, i + 1, k));
      ApplyBlocks(w, uris, ids, results, i + 1, k);
      if i + 1 < k {
        assert Settled(w.store.images, results, i + 1, k) == Settled(v.store.images, results, i, k);
      } else {
        assert w.store.images == Settled(v.store.images, results, i, k);
      }
    }
  }

  /** The callbacks after the last settled item: the tally clears the busy
      flag and the current image, a sleeping run fires nothing, and the item
      in flight has been started. */
  lemma ApplyEnding(w: View, uris: seq<string>, ids: seq<string>, results: seq<ProcessImageResult>,
                    halt: Halt, k: nat, succ: nat, fail: nat, e: seq<Event>)
    requires |ids| == |uris| == |results| == |w.store.images|
    requires DistinctIds(w.store.images) && Ids(w.store.images) == ids
    requires k <= |results| && (halt.InFlight? ==> k < |results|)
    requires e == Ending(results, halt, k, succ, fail)
    ensures AllNamed(e, |ids|)
    ensures ApplyTrace(w, uris, ids, e)
         == match halt
            case Done => View(w.store.(isProcessing := false), None)
            case Sleeping => w
            case InFlight =>
              View(w.store.(images := w.store.images[k := Patched(w.store.images[k], Processing, None, None)], currentIndex := k),
                   Some(uris[k]))
  {
    match halt
    case Done =>
      assert e == [QueueComplete(succ, fail)];
      ApplyTraceCons(w, uris, ids, e);
      assert e[1..] == [];
    case Sleeping =>
      assert e == [];
    case InFlight =>
      assert e == [ImageStart(k), Progress(k + 1, |results|)];
      StartStep(w, uris, ids, k);
      ApplyTraceCons(w, uris, ids, e);
      var tail := e[1..];
      assert tail == [Progress(k + 1, |results|)];
      ApplyTraceCons(OnEvent(w, uris, ids, e[0]), uris, ids, tail);
      assert tail[1..] == [];
  }

  /** What starting the queue does to the screen: the store ends as the
      reference result of the run, pointing at the last item started, busy
      exactly while the run is unfinished, and showing the item in flight. */
  lemma WiringOutcome(v: View, uris: seq<string>, results: seq<ProcessImageResult>, s: seq<Signal>)
    requires |results| == |uris| == |v.store.images|
    requires DistinctIds(v.store.images)
    ensures var run := ProcessQueue(Processor(false, false), uris, results, s);
      && (run.halt.InFlight? ==> run.index < |uris|)
      && StartProcessing(v, uris, results, s)
         == View(v.store.(images := Expected(v.store.images, results, run),
                          currentIndex := if run.halt.InFlight? then run.index
                                          else if run.index > 0 then run.index - 1
                                          else v.store.currentIndex,
                          isProcessing := !run.halt.Done?),
                 if run.halt.InFlight? then Some(uris[run.index])
                 else if run.index == 0 && run.halt.Sleeping? then v.current
                 else None)
  {
    var run := ProcessQueue(Processor(false, false), uris, results, s);
    var ids := Ids(v.store.images);
    var k := run.index;
    var v0 := View(SetIsProcessing(v.store, true), v.current);
    var b := Blocks(results, 0, k);
    var e := Ending(results, run.halt, k, Successes(results, 0, k), Failures(results, 0, k));
    assert run.trace == b + e;
    ApplyBlocks(v0, uris, ids, results, 0, k);
    var mid := ApplyTrace(v0, uris, ids, b);
    assert SameIds(v.store.images, mid.store.images);
    SameIdsKeepDistinct(v.store.images, mid.store.images);
    ApplyEnding(mid, uris, ids, results, run.halt, k, Successes(results, 0, k), Failures(results, 0, k), e);
    ApplyTraceConcat(v0, uris, ids, b, e);
    assert mid.store.images == Settled(v.store.images, results, 0, k);
    ExpectedFromSettled(v.store.images, results, run);
  }

  /** The reference result is the settled prefix, with the item in flight
      marked processing. */
  lemma ExpectedFromSettled(images: seq<BatchImage>, results: seq<ProcessImageResult>, run: Run)
    requires |images| == |results| && run.index <= |images|
    requires run.halt.InFlight? ==> run.index < |images|
    ensures var settled := Settled(images, results, 0, run.index);
      Expected(images, results, run)
      == if run.halt.InFlight? then settled[run.index := Patched(settled[run.index], Processing, None, None)] else settled
  {
  }

  // ---------------------------------------------------------------------------
  // Invariants of a fresh queue

  /** Images just added by `addImages`: pending with no result and no error. */
  predicate Fresh(images: seq<BatchImage>) {
    forall j | 0 <= j < |images| :: images[j].status == Pending && images[j].resultUri.None? && images[j].error.None?
  }

  /** On a fresh queue a run keeps the record consistent: a result exactly
      for completed items (and never an empty one), an error exactly for
      failed ones, at most the item in flight processing, and the items from
      the stopping index on still pending. */
  lemma FreshRunConsistent(v: View, uris: seq<string>, results: seq<ProcessImageResult>, s: seq<Signal>)
    requires |results| == |uris| == |v.store.images|
    requires DistinctIds(v.store.images) && Fresh(v.store.images)
    ensures var run := ProcessQueue(Processor(false, false), uris, results, s);
      var images := StartProcessing(v, uris, results, s).store.images;
      forall j | 0 <= j < |images| ::
        && (images[j].status == Completed <==> images[j].resultUri.Some?)
        && (images[j].resultUri.Some? ==> images[j].resultUri.value != "")
        && (images[j].status == Failed <==> images[j].error.Some?)
        && (images[j].status == Processing <==> run.halt.InFlight? && j == run.index)
        && (images[j].status == Pending <==> j >= run.index && !(run.halt.InFlight? && j == run.index))
        && (j < run.index ==> (images[j].status == Completed <==> Succeeded(results[j])))
  {
    WiringOutcome(v, uris, results, s);
  }

  /** The number of images among positions `i .. k-1` whose status is one
      of `wanted`. */
  function CountIn(images: seq<BatchImage>, wanted: set<ProcessingStatus>, i: nat, k: nat): (c: nat)
    requires i <= k <= |images|
    ensures c <= k - i
    ensures c == k - i <==> forall j | i <= j < k :: images[j].status in wanted
    ensures c == 0 <==> forall j | i <= j < k :: images[j].status !in wanted
    decreases k - i
  {
    if i == k then 0 else (if images[i].status in wanted then 1 else 0) + CountIn(images, wanted, i + 1, k)
  }

  const ProcessedStatuses := {Completed, Failed}

  /** The header's progress: processed images over all images, as a
      percentage. With no images the division yields NaN; here, None. */
  function ProgressPercent(images: seq<BatchImage>): (p: Option<real>)
    ensures p.None? <==> |images| == 0
    ensures p.Some? ==> 0.0 <= p.value <= 100.0
    ensures p.Some? ==> (p.value == 100.0 <==> forall j | 0 <= j < |images| :: images[j].status in ProcessedStatuses)
    ensures p.Some? ==> (p.value == 0.0 <==> forall j | 0 <= j < |images| :: images[j].status !in ProcessedStatuses)
  {
    if |images| == 0 then None
    else
      var c := CountIn(images, ProcessedStatuses, 0, |images|) as real;
      var n := |images| as real;
      FractionBounds(c, n);
      Some(c / n * 100.0)
  }

  /** A share of a positive whole lies between nothing and all of it. */
  lemma FractionBounds(c: real, n: real)
    requires 0.0 <= c <= n && n > 0.0
    ensures 0.0 <= c / n <= 1.0
    ensures c / n == 1.0 <==> c == n
    ensures c / n == 0.0 <==> c == 0.0
  {
    assert c / n * n == c;
  }

  lemma {:induction false} CountSplit(images: seq<BatchImage>, wanted: set<ProcessingStatus>, i: nat, m: nat, k: nat)
    requires i <= m <= k <= |images|
    ensures CountIn(images, wanted, i, k) == CountIn(images, wanted, i, m) + CountIn(images, wanted, m, k)
    decreases m - i
  {
    if i < m {
      CountSplit(images, wanted, i + 1, m, k);
    }
  }

  lemma {:induction false} CountOutcomes(images: seq<BatchImage>, results: seq<ProcessImageResult>, i: nat, k: nat)
    requires i <= k <= |images| == |results|
    requires forall j | i <= j < k :: images[j].status == (if Succeeded(results[j]) then Completed else Failed)
    ensures CountIn(images, {Completed}, i, k) == Successes(results, i, k)
    ensures CountIn(images, {Failed}, i, k) == Failures(results, i, k)
    decreases k - i
  {
    if i < k {
      CountOutcomes(images, results, i + 1, k);
    }
  }

  /** Counting over images whose first `k` items are processed and the rest
      not. */
  lemma CountProcessedPrefix(images: seq<BatchImage>, k: nat)
    requires k <= |images|
    requires forall j | 0 <= j < k :: images[j].status in ProcessedStatuses
    requires forall j | k <= j < |images| :: images[j].status !in ProcessedStatuses
    ensures CountIn(images, ProcessedStatuses, 0, |images|) == k
  {
    CountSplit(images, ProcessedStatuses, 0, k, |images|);
  }

  /** The completed and failed counts of images whose first `k` items are
      settled and the rest not processed. */
  lemma CountTally(images: seq<BatchImage>, results: seq<ProcessImageResult>, k: nat)
    requires k <= |images| == |results|
    requires forall j | 0 <= j < k :: images[j].status == (if Succeeded(results[j]) then Completed else Failed)
    requires forall j | k <= j < |images| :: images[j].status !in ProcessedStatuses
    ensures CountIn(images, {Completed}, 0, |images|) == Successes(results, 0, k)
    ensures CountIn(images, {Failed}, 0, |images|) == Failures(results, 0, k)
  {
    var n := |images|;
    CountSplit(images, {Completed}, 0, k, n);
    CountSplit(images, {Failed}, 0, k, n);
    CountOutcomes(images, results, 0, k);
  }

  /** On a fresh queue, the header counts exactly the items the run went
      through, and a finished run's tally agrees with the completed and
      failed items on screen. */
  lemma FreshRunCounts(v: View, uris: seq<string>, results: seq<ProcessImageResult>, s: seq<Signal>)
    requires |results| == |uris| == |v.store.images|
    requires DistinctIds(v.store.images) && Fresh(v.store.images)
    ensures var run := ProcessQueue(Processor(false, false), uris, results, s);
      var images := StartProcessing(v, uris, results, s).store.images;
      && CountIn(images, ProcessedStatuses, 0, |images|) == run.index
      && (run.halt.Done? ==> run.trace[|run.trace| - 1]
                             == QueueComplete(CountIn(images, {Completed}, 0, |images|), CountIn(images, {Failed}, 0, |images|)))
  {
    var run := ProcessQueue(Processor(false, false), uris, results, s);
    var images := StartProcessing(v, uris, results, s).store.images;
    FreshRunConsistent(v, uris, results, s);
    CountProcessedPrefix(images, run.index);
    if run.halt.Done? {
      CountTally(images, results, run.index);
      var b := Blocks(results, 0, run.index);
      assert run.trace == b + [QueueComplete(Successes(results, 0, run.index), Failures(results, 0, run.index))];
    }
  }

  // ---------------------------------------------------------------------------
  // The completion alert

  /** The alert's title and message as the screen spells them: the
      celebration emoji appear as their UTF-8 bytes read one by one as
      Windows-1252 characters. */
  const GarbledFireParty := "\U{F0}\U{178}\U{201D}\U{A5}\U{F0}\U{178}\U{17D}\U{2030}"
  const CompletionTitleAsWritten := "Mission Complete! \U{F0}\U{178}\U{17D}\U{2030}"

  function CompletionMessageAsWritten(successCount: int, failureCount: int): string {
    if failureCount > 0 then Copy.WithFailures(successCount, failureCount)
    else "Boom! All " + Text.IntToString(successCount) + " images are ready! You're on fire! " + GarbledFireParty
  }

  /** The screen's completion text differs from the copy it repeats exactly
      when nothing failed: the emoji are garbled, whatever the count. */
  lemma CompletionMessageGarbled(successCount: int, failureCount: int)
    ensures failureCount > 0 ==> CompletionMessageAsWritten(successCount, failureCount) == CompletionMessage(successCount, failureCount)
    ensures failureCount <= 0 ==> CompletionMessageAsWritten(successCount, failureCount) != CompletionMessage(successCount, failureCount)
    ensures CompletionTitleAsWritten != Copy.CompletionTitle
  {
    if failureCount <= 0 {
      assert |CompletionMessageAsWritten(successCount, failureCount)| == |CompletionMessage(successCount, failureCount)| + 6;
    }
    assert |CompletionTitleAsWritten| == |Copy.CompletionTitle| + 3;
  }

  /** The completion message with the emoji the copy defines. */
  function CompletionMessage(successCount: int, failureCount: int): string {
    if failureCount > 0 then Copy.WithFailures(successCount, failureCount) else Copy.AllSuccess(successCount)
  }

  lemma {:induction false} FailuresWitness(results: seq<ProcessImageResult>, i: nat, k: nat)
    requires i <= k <= |results|
    ensures Failures(results, i, k) > 0 <==> exists j | i <= j < k :: !Succeeded(results[j])
    ensures Successes(results, i, k) + Failures(results, i, k) == k - i
    decreases k - i
  {
    if i < k {
      FailuresWitness(results, i + 1, k);
      if !Succeeded(results[i]) {
        assert i <= i < k && !Succeeded(results[i]);
      }
    }
  }

  /** A finished run announces trouble exactly when one of the items it went
      through failed; otherwise every item it went through is counted as
      ready. */
  lemma CompletionMessageReportsFailures(uris: seq<string>, results: seq<ProcessImageResult>, s: seq<Signal>)
    requires |results| == |uris|
    ensures var run := ProcessQueue(Processor(false, false), uris, results, s);
      run.halt.Done? ==>
        var tally := run.trace[|run.trace| - 1];
        && tally.QueueComplete?
        && var message := CompletionMessage(tally.successCount, tally.failureCount);
        && ((message == Copy.WithFailures(tally.successCount, tally.failureCount))
            <==> (exists j | 0 <= j < run.index :: !Succeeded(results[j])))
        && (tally.failureCount == 0 ==> message == Copy.AllSuccess(run.index))
  {
    var run := ProcessQueue(Processor(false, false), uris, results, s);
    if run.halt.Done? {
      FailuresWitness(results, 0, run.index);
      var f := Failures(results, 0, run.index);
      var sc := Successes(results, 0, run.index);
      if f > 0 {
        assert CompletionMessage(sc, f) == Copy.WithFailures(sc, f);
      } else {
        assert CompletionMessage(sc, f) == Copy.AllSuccess(sc);
        assert Copy.AllSuccess(sc)[..6] == "Boom! ";
        assert Copy.WithFailures(sc, f)[..6] == "Crushi";
      }
    }
  }

  // ---------------------------------------------------------------------------
  // Pause, resume and cancel

  /** `handlePause`: the processor's flag, then the store's. */
  function HandlePause(p: Processor, st: BatchQueueState): (r: (Processor, BatchQueueState))
    ensures r.0.isPaused && r.0.isCancelled == p.isCancelled
    ensures r.1 == st.(isPaused := true)
  {
    (Apply(p, PauseCall), SetIsPaused(st, true))
  }

  function HandleResume(p: Processor, st: BatchQueueState): (r: (Processor, BatchQueueState))
    ensures !r.0.isPaused && r.0.isCancelled == p.isCancelled
    ensures r.1 == st.(isPaused := false)
  {
    (Apply(p, ResumeCall), SetIsPaused(st, false))
  }

  /** `handleCancel` once confirmed: cancel the processor and stop showing
      progress. The store's `isPaused` is left as it was. */
  function HandleCancel(p: Processor, v: View): (r: (Processor, View))
    ensures r.0.isCancelled && !r.0.isPaused
    ensures r.1 == View(v.store.(isProcessing := false), None)
  {
    (Apply(p, CancelCall), View(SetIsProcessing(v.store, false), None))
  }

  /** Pause and resume keep the two paused flags in step; cancelling a paused
      queue clears the processor's flag but not the store's. */
  lemma PausedFlagsInStep(p: Processor, v: View)
    requires p.isPaused == v.store.isPaused
    ensures HandlePause(p, v.store).0.isPaused == HandlePause(p, v.store).1.isPaused
    ensures HandleResume(p, v.store).0.isPaused == HandleResume(p, v.store).1.isPaused
    ensures v.store.isPaused ==> HandleCancel(p, v).0.isPaused != HandleCancel(p, v).1.store.isPaused
  {
  }

  /** `handleDone`: the queue is emptied whatever it held, before the screen
      navigates away (navigation is not modelled). */
  function HandleDone(v: View): (r: View)
    ensures r.store.images == [] && r.store.currentIndex == 0
    ensures !r.store.isProcessing && !r.store.isPaused
    ensures r.current == v.current
  {
    View(ResetQueue(v.store), v.current)
  }

  /** Two screens that finish with different queues are left in the same
      store state. */
  lemma HandleDoneForgets(v: View, w: View)
    requires v.current == w.current
    ensures HandleDone(v) == HandleDone(w)
  {
    ResetForgetsEverything(v.store, w.store);
  }

  // ---------------------------------------------------------------------------
  // Retry

  /** `state.images.find(img => img.id === imageId)`. */
  function FindImage(images: seq<BatchImage>, id: string): (r: Option<BatchImage>)
    ensures r.None? <==> forall k | 0 <= k < |images| :: images[k].id != id
    ensures r.Some? ==> r.value in images && r.value.id == id
    ensures r.Some? ==> exists k | 0 <= k < |images| :: images[k] == r.value && forall j | 0 <= j < k :: images[j].id != id
    decreases |images|
  {
    if |images| == 0 then None
    else if images[0].id == id then Some(images[0])
    else
      var r := FindImage(images[1..], id);
      if r.Some? then
        ghost var k :| 0 <= k < |images[1..]| && images[1..][k] == r.value && forall j | 0 <= j < k :: images[1..][j].id != id;
        assert images[k + 1] == r.value;
        r
      else r
  }

  datatype Alert = Alert(title: string, message: string)

  datatype Retried = Retried(view: View, alert: Option<Alert>)

  const RetrySuccessAlert := Alert("Success", "Image processed successfully!")

  /** `handleRetry`: mark the image processing, send it once more, and record
      the outcome. An unknown id changes nothing. */
  function HandleRetry(v: View, id: string, x: Exchange): (r: Retried)
    ensures FindImage(v.store.images, id).None? ==> r == Retried(v, None)
    ensures FindImage(v.store.images, id).Some? ==> r.view.current.None? && r.alert.Some?
    ensures |r.view.store.images| == |v.store.images|
  {
    match FindImage(v.store.images, id)
    case None => Retried(v, None)
    case Some(img) => RetryOutcome(v, id, ProcessSingleImage(x))
  }

  /** The screen once the retried request has resolved to `res`. */
  function RetryOutcome(v: View, id: string, res: ProcessImageResult): (r: Retried)
    ensures r.view.current.None? && r.alert.Some?
    ensures |r.view.store.images| == |v.store.images|
  {
    var busy := UpdateImageStatus(v.store, id, Processing, None, None);
    if Succeeded(res) then
      Retried(View(UpdateImageStatus(busy, id, Completed, res.resultUri, None), None), Some(RetrySuccessAlert))
    else
      Retried(View(UpdateImageStatus(busy, id, Failed, None, Some(FailureText(res))), None),
              Some(Alert("Retry Failed", Copy.RetryFailedMessage(res.error))))
  }

  /** Whatever the retried request resolves to, the image is settled exactly
      as the queue would have settled it, no other image is touched, and a
      success leaves an earlier error in place. */
  lemma RetrySettles(v: View, j: nat, res: ProcessImageResult)
    requires DistinctIds(v.store.images) && j < |v.store.images|
    ensures RetryOutcome(v, v.store.images[j].id, res).view.store
         == v.store.(images := v.store.images[j := Outcome(v.store.images[j], res)])
    ensures Succeeded(res) ==> RetryOutcome(v, v.store.images[j].id, res).view.store.images[j].error == v.store.images[j].error
  {
    var id := v.store.images[j].id;
    UpdateAt(v.store, j, Processing, None, None);
    var busy := UpdateImageStatus(v.store, id, Processing, None, None);
    assert DistinctIds(busy.images) by {
      assert forall k | 0 <= k < |busy.images| :: busy.images[k].id == v.store.images[k].id;
    }
    if Succeeded(res) {
      UpdateAt(busy, j, Completed, res.resultUri, None);
    } else {
      UpdateAt(busy, j, Failed, None, Some(FailureText(res)));
    }
  }

  /** A retry settles the image exactly as the queue would have, and touches
      no other image. A successful retry leaves an earlier error in place. */
  lemma RetryAsInQueue(v: View, j: nat, x: Exchange)
    requires DistinctIds(v.store.images) && j < |v.store.images|
    ensures HandleRetry(v, v.store.images[j].id, x).view.store
         == v.store.(images := v.store.images[j := Outcome(v.store.images[j], ProcessSingleImage(x))])
    ensures Succeeded(ProcessSingleImage(x)) ==>
      HandleRetry(v, v.store.images[j].id, x).view.store.images[j].error == v.store.images[j].error
  {
    assert FindImage(v.store.images, v.store.images[j].id).Some?;
    RetrySettles(v, j, ProcessSingleImage(x));
  }

  // ---------------------------------------------------------------------------
  // Save all

  /** An image `Save All` would write: completed, with a non-empty result, and
      not saved before. */
  predicate Unsaved(img: BatchImage, saved: set<string>) {
    img.status == Completed && img.resultUri.Some? && img.resultUri.value != "" && img.id !in saved
  }

  /** The two filters of `handleSaveAll`, in queue order. */
  function SaveAllCandidates(images: seq<BatchImage>, saved: set<string>): (r: seq<BatchImage>)
    ensures forall x :: x in r <==> x in images && Unsaved(x, saved)
    ensures |r| <= |images|
    decreases |images|
  {
    if |images| == 0 then []
    else if Unsaved(images[0], saved) then [images[0]] + SaveAllCandidates(images[1..], saved)
    else SaveAllCandidates(images[1..], saved)
  }

  datatype SaveAllSummary =
    | AlreadySaved
    | PermissionDenied
    | SavedSome(successCount: nat, total: nat)
    | SavedAll(successCount: nat)

  /** How many of the first `i` writes succeeded. */
  function WrittenCount(written: seq<bool>, i: nat): (n: nat)
    requires i <= |written|
    ensures n <= i
    ensures n == i <==> forall k | 0 <= k < i :: written[k]
    ensures n == 0 <==> forall k | 0 <= k < i :: !written[k]
  {
    if i == 0 then 0 else WrittenCount(written, i - 1) + (if written[i - 1] then 1 else 0)
  }

  /** `handleSaveAll` once permission has been asked for: each candidate is
      written or not (`written[k]` for the `k`-th candidate); the saved set
      grows by the ids written. */
  method SaveAll(images: seq<BatchImage>, saved: set<string>, granted: bool, written: seq<bool>)
    returns (nowSaved: set<string>, summary: SaveAllSummary)
    requires |written| == |SaveAllCandidates(images, saved)|
    ensures var c := SaveAllCandidates(images, saved);
      && (|c| == 0 ==> summary == AlreadySaved && nowSaved == saved)
      && (|c| > 0 && !granted ==> summary == PermissionDenied && nowSaved == saved)
      && (|c| > 0 && granted ==>
            && nowSaved == saved + (set k | 0 <= k < |c| && written[k] :: c[k].id)
            && (summary.SavedAll? <==> forall k | 0 <= k < |c| :: written[k])
            && (summary.SavedAll? ==> summary.successCount == |c|)
            && (summary.SavedSome? ==> summary.total == |c| && summary.successCount == WrittenCount(written, |c|) < |c|))
  {
    var c := SaveAllCandidates(images, saved);
    nowSaved := saved;
    if |c| == 0 {
      summary := AlreadySaved;
      return;
    }
    if !granted {
      summary := PermissionDenied;
      return;
    }
    var successCount, failureCount := 0, 0;
    var i := 0;
    while i < |c|
      invariant 0 <= i <= |c|
      invariant successCount + failureCount == i
      invariant successCount == WrittenCount(written, i)
      invariant nowSaved == saved + (set k | 0 <= k < i && written[k] :: c[k].id)
      invariant failureCount == 0 <==> forall k | 0 <= k < i :: written[k]
    {
      if written[i] {
        nowSaved := nowSaved + {c[i].id};
        successCount := successCount + 1;
      } else {
        failureCount := failureCount + 1;
      }
      i := i + 1;
    }
    if failureCount > 0 {
      summary := SavedSome(successCount, |c|);
    } else {
      summary := SavedAll(successCount);
    }
  }

  lemma {:induction false} NothingUnsaved(images: seq<BatchImage>, saved: set<string>)
    requires forall x | x in images :: !Unsaved(x, saved)
    ensures SaveAllCandidates(images, saved) == []
    decreases |images|
  {
    if |images| > 0 {
      assert images[0] in images;
      NothingUnsaved(images[1..], saved);
    }
  }

  /** Once every candidate has been written, `Save All` has nothing left to
      do. */
  lemma SaveAllExhausts(images: seq<BatchImage>, saved: set<string>)
    ensures var c := SaveAllCandidates(images, saved);
      SaveAllCandidates(images, saved + (set k | 0 <= k < |c| :: c[k].id)) == []
  {
    var c := SaveAllCandidates(images, saved);
    var more := saved + (set k | 0 <= k < |c| :: c[k].id);
    forall x | x in c
      ensures x.id in more
    {
      var k :| 0 <= k < |c| && c[k] == x;
    }
    NothingUnsaved(images, more);
  }
}

/** Consequences of the queue loop's shape: ordering, at-most-once starts,
    one outcome per started item, a single final tally, and the behaviour of
    the pause / resume / cancel controls at the loop's checkpoints. */
module ProcessorProofs {
  import opened Wrappers
  import Text
  import opened BatchProcessor

  // ---------------------------------------------------------------------------
  // Positions in the reference trace

  /** The event at position `a` of `Blocks(results, i, _)`: every item takes
      three positions (start, progress, outcome). */
  function BlockEventAt(results: seq<ProcessImageResult>, i: nat, a: nat): Event
    requires i + a / 3 < |results|
  {
    TripleEventAt(Outcomes(results), |results|, i, a)
  }

  /** The outcome event of every item, in queue order. */
  function Outcomes(results: seq<ProcessImageResult>): (o: seq<Event>)
    ensures |o| == |results|
  {
    seq(|results|, j requires 0 <= j < |results| => ItemEvent(results, j))
  }

  /** `Blocks` over given outcome events: start, progress and outcome of
      each item `i .. k-1`. */
  function Triples(outcomes: seq<Event>, total: nat, i: nat, k: nat): seq<Event>
    requires i <= k <= |outcomes|
    decreases k - i
  {
    if i == k then []
    else [ImageStart(i), Progress(i + 1, total), outcomes[i]] + Triples(outcomes, total, i + 1, k)
  }

  lemma {:induction false} BlocksAreTriples(results: seq<ProcessImageResult>, i: nat, k: nat)
    requires i <= k <= |results|
    ensures Blocks(results, i, k) == Triples(Outcomes(results), |results|, i, k)
    decreases k - i
  {
    if i < k {
      BlocksAreTriples(results, i + 1, k);
      assert Outcomes(results)[i] == ItemEvent(results, i);
    }
  }

  lemma {:induction false} TriplesLength(outcomes: seq<Event>, total: nat, i: nat, k: nat)
    requires i <= k <= |outcomes|
    ensures |Triples(outcomes, total, i, k)| == 3 * (k - i)
    decreases k - i
  {
    if i < k {
      TriplesLength(outcomes, total, i + 1, k);
    }
  }

  lemma {:induction false} TriplesItem(outcomes: seq<Event>, total: nat, i: nat, k: nat, m: nat)
    requires i + m < k <= |outcomes|
    ensures |Triples(outcomes, total, i, k)| == 3 * (k - i)
    ensures Triples(outcomes, total, i, k)[3 * m] == ImageStart(i + m)
    ensures Triples(outcomes, total, i, k)[3 * m + 1] == Progress(i + m + 1, total)
    ensures Triples(outcomes, total, i, k)[3 * m + 2] == outcomes[i + m]
    decreases m
  {
    TriplesLength(outcomes, total, i, k);
    if m > 0 {
      TriplesItem(outcomes, total, i + 1, k, m - 1);
    }
  }

  lemma BlocksLength(results: seq<ProcessImageResult>, i: nat, k: nat)
    requires i <= k <= |results|
    ensures |Blocks(results, i, k)| == 3 * (k - i)
  {
    BlocksAreTriples(results, i, k);
    TriplesLength(Outcomes(results), |results|, i, k);
  }

  /** The three positions of item `i + m` within `Blocks(results, i, k)`. */
  lemma BlocksItem(results: seq<ProcessImageResult>, i: nat, k: nat, m: nat)
    requires i + m < k <= |results|
    ensures |Blocks(results, i, k)| == 3 * (k - i)
    ensures Blocks(results, i, k)[3 * m] == ImageStart(i + m)
    ensures Blocks(results, i, k)[3 * m + 1] == Progress(i + m + 1, |results|)
    ensures Blocks(results, i, k)[3 * m + 2] == ItemEvent(results, i + m)
  {
    BlocksAreTriples(results, i, k);
    TriplesItem(Outcomes(results), |results|, i, k, m);
    assert Outcomes(results)[i + m] == ItemEvent(results, i + m);
  }

  /** The event at position `a` of `Triples(outcomes, total, i, _)`. */
  function TripleEventAt(outcomes: seq<Event>, total: nat, i: nat, a: nat): Event
    requires i + a / 3 < |outcomes|
  {
    var j := i + a / 3;
    if a % 3 == 0 then ImageStart(j)
    else if a % 3 == 1 then Progress(j + 1, total)
    else outcomes[j]
  }

  lemma TriplesAt(outcomes: seq<Event>, total: nat, i: nat, k: nat, a: nat)
    requires i <= k <= |outcomes|
    requires a < 3 * (k - i)
    ensures |Triples(outcomes, total, i, k)| == 3 * (k - i)
    ensures i + a / 3 < k && Triples(outcomes, total, i, k)[a] == TripleEventAt(outcomes, total, i, a)
  {
    var m, r := a / 3, a % 3;
    assert a == 3 * m + r;
    TriplesItem(outcomes, total, i, k, m);
  }

  lemma BlocksAt(results: seq<ProcessImageResult>, i: nat, k: nat, a: nat)
    requires i <= k <= |results|
    requires a < 3 * (k - i)
    ensures |Blocks(results, i, k)| == 3 * (k - i)
    ensures i + a / 3 < k && Blocks(results, i, k)[a] == BlockEventAt(results, i, a)
  {
    BlocksAreTriples(results, i, k);
    TriplesAt(Outcomes(results), |results|, i, k, a);
  }

  lemma {:induction false} TallySplit(results: seq<ProcessImageResult>, i: nat, k: nat)
    requires i <= k <= |results|
    ensures Successes(results, i, k) + Failures(results, i, k) == k - i
    decreases k - i
  {
    if i < k {
      TallySplit(results, i + 1, k);
    }
  }

  /** A run of the whole queue, as `processQueue` produces it. */
  predicate IsQueueRun(uris: seq<string>, results: seq<ProcessImageResult>, s: seq<Signal>, r: Run) {
    |results| == |uris| && r == ProcessQueue(Processor(false, false), uris, results, s)
  }

  /** Every position of a whole-queue run: the completed items' blocks, then
      the ending. */
  lemma TraceAt(results: seq<ProcessImageResult>, r: Run, a: nat)
    requires Shaped(results, 0, 0, 0, r)
    requires a < |r.trace|
    ensures |r.trace| == 3 * r.index + (match r.halt case Done => 1 case Sleeping => 0 case InFlight => 2)
    ensures a < 3 * r.index ==> a / 3 < r.index && r.trace[a] == BlockEventAt(results, 0, a)
    ensures a >= 3 * r.index ==>
      match r.halt
      case Done => a == 3 * r.index && r.trace[a] == QueueComplete(Successes(results, 0, r.index), Failures(results, 0, r.index))
      case Sleeping => false
      case InFlight => a <= 3 * r.index + 1 && r.trace[a] == [ImageStart(r.index), Progress(r.index + 1, |results|)][a - 3 * r.index]
  {
    BlocksLength(results, 0, r.index);
    if a < 3 * r.index {
      BlocksAt(results, 0, r.index, a);
    }
  }

  // ---------------------------------------------------------------------------
  // Ordering and at-most-once

  /** Items start in strictly ascending index order, so none starts twice,
      and every start is at most the last item. */
  lemma StartsAscend(uris: seq<string>, results: seq<ProcessImageResult>, s: seq<Signal>, r: Run)
    requires IsQueueRun(uris, results, s, r)
    ensures forall a | 0 <= a < |r.trace| && r.trace[a].ImageStart? :: r.trace[a].index < |uris|
    ensures forall a, b | 0 <= a < b < |r.trace| && r.trace[a].ImageStart? && r.trace[b].ImageStart? ::
      r.trace[a].index < r.trace[b].index
  {
    forall a | 0 <= a < |r.trace| && r.trace[a].ImageStart?
      ensures r.trace[a].index == a / 3 && r.trace[a].index < |uris|
    {
      StartAt(results, r, a);
    }
    forall a, b | 0 <= a < b < |r.trace| && r.trace[a].ImageStart? && r.trace[b].ImageStart?
      ensures r.trace[a].index < r.trace[b].index
    {
      StartAt(results, r, a);
      StartAt(results, r, b);
      SameSlotOrder(a, b);
    }
  }

  lemma SameSlotOrder(a: nat, b: nat)
    requires a < b && a % 3 == b % 3
    ensures a / 3 < b / 3
  {
  }

  lemma SlotsOfItem(a: nat)
    requires a % 3 == 0
    ensures (a + 1) / 3 == a / 3 && (a + 1) % 3 == 1
    ensures (a + 2) / 3 == a / 3 && (a + 2) % 3 == 2
  {
  }

  lemma OutcomeSlot(a: nat)
    requires a % 3 == 2
    ensures a >= 2 && (a - 2) / 3 == a / 3 && (a - 2) % 3 == 0
  {
  }

  /** A start at position `a` belongs to item `a / 3`; its progress report
      follows, and, once the run has returned, so does its outcome. */
  lemma StartAt(results: seq<ProcessImageResult>, r: Run, a: nat)
    requires Shaped(results, 0, 0, 0, r)
    requires a < |r.trace| && r.trace[a].ImageStart?
    ensures a % 3 == 0 && r.trace[a].index == a / 3 < |results|
    ensures a + 1 < |r.trace| && r.trace[a + 1] == Progress(a / 3 + 1, |results|)
    ensures r.halt.Done? ==> a + 2 < |r.trace| && r.trace[a + 2] == ItemEvent(results, a / 3)
  {
    TraceAt(results, r, a);
    if a < 3 * r.index {
      SlotsOfItem(a);
      TraceAt(results, r, a + 1);
      TraceAt(results, r, a + 2);
    }
  }

  /** An outcome at position `a` belongs to item `a / 3`, whose start sits
      two positions earlier. */
  lemma OutcomeAt(results: seq<ProcessImageResult>, r: Run, a: nat)
    requires Shaped(results, 0, 0, 0, r)
    requires a < |r.trace| && IsOutcome(r.trace[a])
    ensures a % 3 == 2 && r.trace[a].index == a / 3
    ensures 2 <= a && r.trace[a - 2] == ImageStart(a / 3)
  {
    TraceAt(results, r, a);
    OutcomeSlot(a);
    TraceAt(results, r, a - 2);
  }

  /** Every start is immediately followed by its progress report `(i+1, n)`. */
  lemma StartThenProgress(uris: seq<string>, results: seq<ProcessImageResult>, s: seq<Signal>, r: Run)
    requires IsQueueRun(uris, results, s, r)
    ensures forall a | 0 <= a < |r.trace| && r.trace[a].ImageStart? ::
      a + 1 < |r.trace| && r.trace[a + 1] == Progress(r.trace[a].index + 1, |uris|)
  {
    forall a | 0 <= a < |r.trace| && r.trace[a].ImageStart?
      ensures a + 1 < |r.trace| && r.trace[a + 1] == Progress(r.trace[a].index + 1, |uris|)
    {
      StartAt(results, r, a);
    }
  }

  predicate IsOutcome(e: Event) {
    e.ImageComplete? || e.ImageError?
  }

  /** Every item started before the run stopped gets exactly one outcome,
      right after its progress report, hence before the next item starts;
      only an item whose request is still outstanding has none yet. */
  lemma OneOutcomePerStart(uris: seq<string>, results: seq<ProcessImageResult>, s: seq<Signal>, r: Run)
    requires IsQueueRun(uris, results, s, r)
    ensures forall a | 0 <= a < |r.trace| && r.trace[a].ImageStart? && r.halt.Done? ::
      a + 2 < |r.trace| && IsOutcome(r.trace[a + 2]) && r.trace[a + 2].index == r.trace[a].index
    ensures forall a | 0 <= a < |r.trace| && IsOutcome(r.trace[a]) ::
      2 <= a && r.trace[a - 2] == ImageStart(r.trace[a].index)
    ensures forall a, b | 0 <= a < b < |r.trace| && IsOutcome(r.trace[a]) && IsOutcome(r.trace[b]) ::
      r.trace[a].index < r.trace[b].index
  {
    forall a | 0 <= a < |r.trace| && r.trace[a].ImageStart? && r.halt.Done?
      ensures a + 2 < |r.trace| && IsOutcome(r.trace[a + 2]) && r.trace[a + 2].index == r.trace[a].index
    {
      StartAt(results, r, a);
    }
    forall a | 0 <= a < |r.trace| && IsOutcome(r.trace[a])
      ensures r.trace[a].index == a / 3 && 2 <= a && r.trace[a - 2] == ImageStart(r.trace[a].index)
    {
      OutcomeAt(results, r, a);
    }
    forall a, b | 0 <= a < b < |r.trace| && IsOutcome(r.trace[a]) && IsOutcome(r.trace[b])
      ensures r.trace[a].index < r.trace[b].index
    {
      OutcomeAt(results, r, a);
      OutcomeAt(results, r, b);
      SameSlotOrder(a, b);
    }
  }

  /** The final tally fires exactly when the run has returned, once, as the
      last callback; the two counts add up to the number of items started,
      which is at most the queue length. */
  lemma TallyOnceAtEnd(uris: seq<string>, results: seq<ProcessImageResult>, s: seq<Signal>, r: Run)
    requires IsQueueRun(uris, results, s, r)
    ensures forall a | 0 <= a < |r.trace| :: r.trace[a].QueueComplete? <==> r.halt.Done? && a == |r.trace| - 1
    ensures r.halt.Done? ==>
      && |r.trace| > 0
      && var last := r.trace[|r.trace| - 1];
      && last.successCount + last.failureCount == r.index <= |uris|
      && last.successCount == Successes(results, 0, r.index)
  {
    BlocksLength(results, 0, r.index);
    TallySplit(results, 0, r.index);
    forall a | 0 <= a < |r.trace|
      ensures r.trace[a].QueueComplete? <==> r.halt.Done? && a == |r.trace| - 1
    {
      TraceAt(results, r, a);
    }
  }

  // ---------------------------------------------------------------------------
  // Cancellation

  /** Without a `cancel()` call, a run that returns has processed every item
      in order and reports their tallies. */
  lemma WithoutCancelAllProcessed(uris: seq<string>, results: seq<ProcessImageResult>, s: seq<Signal>)
    requires |results| == |uris|
    requires Press(CancelCall) !in s
    ensures var r := ProcessQueue(Processor(false, false), uris, results, s);
      r.halt.Done? ==>
        r.trace == Blocks(results, 0, |uris|) + [QueueComplete(Successes(results, 0, |uris|), Failures(results, 0, |uris|))]
  {
  }

  /** Flags set before the run do not matter: `processQueue` clears both, so a
      `cancel()` issued before it starts is forgotten. In the model this is
      immediate: `ProcessQueue` receives the earlier flags as `p` and, like
      the source, never reads them. */
  lemma CancelBeforeRunForgotten(p: Processor, uris: seq<string>, results: seq<ProcessImageResult>, s: seq<Signal>)
    requires |results| == |uris|
    ensures ProcessQueue(Apply(p, CancelCall), uris, results, s) == ProcessQueue(Processor(false, false), uris, results, s)
  {
  }

  /** Once a checkpoint sees the cancel flag, no further item starts: the run
      returns with the tallies so far. */
  lemma CancelObservedStopsAtTop(results: seq<ProcessImageResult>, i: nat, p: Processor, succ: nat, fail: nat, s: seq<Signal>)
    requires i <= |results|
    requires p.isCancelled
    ensures Top(results, i, p, succ, fail, s) == Run([QueueComplete(succ, fail)], Done, p, i)
  {
  }

  /** A cancel issued while an item's request is in flight does not suppress
      that item's outcome; the run then returns without starting another. */
  lemma CancelDuringRequest(results: seq<ProcessImageResult>, i: nat, p: Processor, succ: nat, fail: nat,
                            pre: seq<Signal>, post: seq<Signal>)
    requires i < |results|
    requires !p.isPaused && !p.isCancelled
    requires Settle !in pre
    ensures var r := Begin(results, i, p, succ, fail, pre + [Press(CancelCall), Settle] + post);
      && r.halt.Done?
      && r.index == i + 1
      && r.trace == [ImageStart(i), Progress(i + 1, |results|), ItemEvent(results, i),
                     QueueComplete(succ + SuccessIncrement(results, i), fail + (1 - SuccessIncrement(results, i)))]
  {
    AwaitThrough(p, pre + [Press(CancelCall)], post);
    ApplyAllSnoc(p, pre, CancelCall);
    assert pre + [Press(CancelCall), Settle] + post == pre + [Press(CancelCall)] + [Settle] + post;
  }

  // ---------------------------------------------------------------------------
  // Awaits and the pause wait

  lemma {:induction false} ApplyAllSnoc(p: Processor, pre: seq<Signal>, c: Control)
    ensures ApplyAll(p, pre + [Press(c)]) == Apply(ApplyAll(p, pre), c)
    decreases |pre|
  {
    if |pre| > 0 {
      assert (pre + [Press(c)])[1..] == pre[1..] + [Press(c)];
      ApplyAllSnoc(if pre[0].Press? then Apply(p, pre[0].c) else p, pre[1..], c);
    }
  }

  /** Calls made during one await all land before it settles. */
  lemma {:induction false} AwaitThrough(p: Processor, pre: seq<Signal>, post: seq<Signal>)
    requires Settle !in pre
    ensures Await(p, pre + [Settle] + post) == Wake(ApplyAll(p, pre), post, true)
    decreases |pre|
  {
    if |pre| == 0 {
      assert pre + [Settle] + post == [Settle] + post;
    } else {
      assert (pre + [Settle] + post)[1..] == pre[1..] + [Settle] + post;
      assert pre[0] in pre;
      AwaitThrough(Apply(p, pre[0].c), pre[1..], post);
    }
  }

  /** The cancel flag after some calls: set iff it was set or `cancel()` was
      among them. */
  lemma {:induction false} ApplyAllCancelled(p: Processor, s: seq<Signal>)
    ensures ApplyAll(p, s).isCancelled <==> p.isCancelled || Press(CancelCall) in s
    decreases |s|
  {
    if |s| > 0 {
      ApplyAllCancelled(if s[0].Press? then Apply(p, s[0].c) else p, s[1..]);
      assert s == [s[0]] + s[1..];
    }
  }

  /** While paused and neither resumed nor cancelled, the loop only sleeps: no
      callback fires and it stays at the same index. */
  lemma {:induction false} PausedStaysIdle(results: seq<ProcessImageResult>, i: nat, p: Processor, succ: nat, fail: nat, s: seq<Signal>)
    requires i < |results|
    requires p.isPaused && !p.isCancelled
    requires Press(ResumeCall) !in s && Press(CancelCall) !in s
    ensures var r := PauseWait(results, i, p, succ, fail, s);
      r.trace == [] && r.halt.Sleeping? && r.index == i
    decreases |s|
  {
    var w := Await(p, s);
    if w.settled {
      assert forall x | x in w.rest :: x in s;
      PausedStaysIdle(results, i, w.p, succ, fail, w.rest);
    }
  }

  /** `cancel()` while paused clears the pause: at the next timer tick the
      wait ends and the run returns without starting the item. */
  lemma CancelReleasesPause(results: seq<ProcessImageResult>, i: nat, p: Processor, succ: nat, fail: nat,
                            pre: seq<Signal>, post: seq<Signal>)
    requires i < |results|
    requires p.isPaused && !p.isCancelled
    requires Settle !in pre
    ensures PauseWait(results, i, p, succ, fail, pre + [Press(CancelCall), Settle] + post)
         == Run([QueueComplete(succ, fail)], Done, Processor(false, true), i)
  {
    AwaitThrough(p, pre + [Press(CancelCall)], post);
    ApplyAllSnoc(p, pre, CancelCall);
    assert pre + [Press(CancelCall), Settle] + post == pre + [Press(CancelCall)] + [Settle] + post;
  }

  /** `resume()` while paused continues with the very item the loop stopped
      at: no item is skipped and none is repeated. */
  lemma ResumeContinuesAtSameIndex(results: seq<ProcessImageResult>, i: nat, p: Processor, succ: nat, fail: nat,
                                   pre: seq<Signal>, post: seq<Signal>)
    requires i < |results|
    requires p.isPaused && !p.isCancelled
    requires Settle !in pre && Press(CancelCall) !in pre
    ensures var r := PauseWait(results, i, p, succ, fail, pre + [Press(ResumeCall), Settle] + post);
      && |r.trace| >= 2
      && r.trace[0] == ImageStart(i)
      && r.trace[1] == Progress(i + 1, |results|)
  {
    AwaitThrough(p, pre + [Press(ResumeCall)], post);
    ApplyAllSnoc(p, pre, ResumeCall);
    ApplyAllCancelled(p, pre);
    assert pre + [Press(ResumeCall), Settle] + post == pre + [Press(ResumeCall)] + [Settle] + post;
    var q := ApplyAll(p, pre + [Press(ResumeCall)]);
    assert !q.isPaused && !q.isCancelled;
    var r := Begin(results, i, q, succ, fail, post);
    assert r.trace[..2] == [ImageStart(i), Progress(i + 1, |results|)];
  }

  // ---------------------------------------------------------------------------
  // Runs that go to the end

  function Settles(m: nat): (s: seq<Signal>)
    ensures |s| == m
    ensures forall k | 0 <= k < m :: s[k] == Settle
  {
    seq(m, k => Settle)
  }

  /** With no control calls and every request settling, the loop processes the
      rest of the queue and returns. */
  lemma {:induction false} UninterruptedFinishes(results: seq<ProcessImageResult>, i: nat, succ: nat, fail: nat, m: nat)
    requires i <= |results|
    requires m >= |results| - i
    ensures var r := Top(results, i, Processor(false, false), succ, fail, Settles(m));
      r.halt.Done? && r.index == |results|
    decreases |results| - i
  {
    if i < |results| {
      var p := Processor(false, false);
      var s := Settles(m);
      assert s == [Settle] + Settles(m - 1);
      assert Await(p, s) == Wake(p, Settles(m - 1), true);
      var ok := Succeeded(results[i]);
      var succ', fail' := if ok then succ + 1 else succ, if ok then fail else fail + 1;
      UninterruptedFinishes(results, i + 1, succ', fail', m - 1);
      var next := Top(results, i + 1, p, succ', fail', Settles(m - 1));
      assert Begin(results, i, p, succ, fail, s).halt == next.halt;
      assert Begin(results, i, p, succ, fail, s).index == next.index;
      assert Top(results, i, p, succ, fail, s) == PauseWait(results, i, p, succ, fail, s) == Begin(results, i, p, succ, fail, s);
    }
  }

  /** The number of awaits a stream of signals can settle. */
  function SettleCount(s: seq<Signal>): (n: nat)
    ensures n <= |s|
    ensures n > 0 <==> Settle in s
    decreases |s|
  {
    if |s| == 0 then 0 else (if s[0] == Settle then 1 else 0) + SettleCount(s[1..])
  }

  /** An await over a stream that holds a `Settle` settles, uses up exactly
      one of them, and without a pause call leaves an unpaused processor
      unpaused. */
  lemma {:induction false} AwaitSettles(p: Processor, s: seq<Signal>)
    requires Settle in s
    ensures Await(p, s).settled
    ensures SettleCount(Await(p, s).rest) == SettleCount(s) - 1
    ensures !p.isPaused && Press(PauseCall) !in s ==> !Await(p, s).p.isPaused
    decreases |s|
  {
    if s[0] != Settle {
      assert Settle in s[1..];
      assert forall x | x in s[1..] :: x in s;
      AwaitSettles(Apply(p, s[0].c), s[1..]);
    }
  }

  /** Progress: an unpaused loop that is never paused, and whose stream can
      settle as many awaits as there are items left, returns; unless it was
      cancelled, it went through the whole queue. */
  lemma {:induction false} SettlesSuffice(results: seq<ProcessImageResult>, i: nat, p: Processor, succ: nat, fail: nat, s: seq<Signal>)
    requires i <= |results|
    requires !p.isPaused && Press(PauseCall) !in s
    requires SettleCount(s) >= |results| - i
    ensures Top(results, i, p, succ, fail, s).halt.Done?
    decreases |s|
  {
    if i < |results| && !p.isCancelled {
      AwaitSettles(p, s);
      var w := Await(p, s);
      var ok := Succeeded(results[i]);
      var succ', fail' := if ok then succ + 1 else succ, if ok then fail else fail + 1;
      assert Press(PauseCall) !in w.rest;
      SettlesSuffice(results, i + 1, w.p, succ', fail', w.rest);
      assert Top(results, i, p, succ, fail, s) == PauseWait(results, i, p, succ, fail, s) == Begin(results, i, p, succ, fail, s);
    }
  }

  /** A queue run whose stream has no pause call and settles every request
      returns, and it stops early only when a cancel call was made. */
  lemma RunWithoutPauseReturns(uris: seq<string>, results: seq<ProcessImageResult>, s: seq<Signal>)
    requires |results| == |uris|
    requires Press(PauseCall) !in s && SettleCount(s) >= |uris|
    ensures var r := ProcessQueue(Processor(false, false), uris, results, s);
      && r.halt.Done?
      && (Press(CancelCall) !in s ==> r.index == |uris|)
  {
    SettlesSuffice(results, 0, Processor(false, false), 0, 0, s);
  }

  // ---------------------------------------------------------------------------
  // Scenarios

  /** Three images that all succeed report `(3, 0)`. */
  lemma AllSucceedScenario(a: string, b: string, c: string)
    requires a != "" && b != "" && c != ""
    ensures var r := ProcessQueue(Processor(false, false), ["u0", "u1", "u2"],
                                  Resolve([Delivered(a), Delivered(b), Delivered(c)]), Settles(3));
      r.halt.Done? && r.trace[|r.trace| - 1] == QueueComplete(3, 0)
  {
    var results := Resolve([Delivered(a), Delivered(b), Delivered(c)]);
    UninterruptedFinishes(results, 0, 0, 0, 3);
    var r := ProcessQueue(Processor(false, false), ["u0", "u1", "u2"], results, Settles(3));
    TallyOnceAtEnd(["u0", "u1", "u2"], results, Settles(3), r);
    TallySplit(results, 0, 3);
  }

  /** The middle of three requests times out: that item fails with the
      timeout message, the others are unaffected, and the tally is `(2, 1)`. */
  lemma TimeoutScenario(a: string, c: string, abortMessage: string)
    requires a != "" && c != ""
    ensures var results := Resolve([Delivered(a), Raised(ErrorObject("AbortError", abortMessage)), Delivered(c)]);
      var r := ProcessQueue(Processor(false, false), ["u0", "u1", "u2"], results, Settles(3));
      && r.halt.Done?
      && r.trace == [ImageStart(0), Progress(1, 3), ImageComplete(0, a),
                     ImageStart(1), Progress(2, 3), ImageError(1, TimeoutMessage),
                     ImageStart(2), Progress(3, 3), ImageComplete(2, c),
                     QueueComplete(2, 1)]
  {
    var results := Resolve([Delivered(a), Raised(ErrorObject("AbortError", abortMessage)), Delivered(c)]);
    UninterruptedFinishes(results, 0, 0, 0, 3);
  }

  /** `cancel()` while the first of three requests is in flight: the first
      item still completes, the others never start, and the tally is `(1, 0)`. */
  lemma CancelAfterFirstScenario(a: string, b: string, c: string)
    requires a != ""
    ensures var r := ProcessQueue(Processor(false, false), ["u0", "u1", "u2"],
                                  Resolve([Delivered(a), Delivered(b), Delivered(c)]), [Press(CancelCall), Settle]);
      && r.halt.Done?
      && r.index == 1
      && r.trace == [ImageStart(0), Progress(1, 3), ImageComplete(0, a), QueueComplete(1, 0)]
  {
    var results := Resolve([Delivered(a), Delivered(b), Delivered(c)]);
    var p := Processor(false, false);
    var s := [Press(CancelCall), Settle];
    CancelDuringRequest(results, 0, p, 0, 0, [], []);
    assert [] + [Press(CancelCall), Settle] + [] == s;
    assert Top(results, 0, p, 0, 0, s) == PauseWait(results, 0, p, 0, 0, s) == Begin(results, 0, p, 0, 0, s);
    assert SuccessIncrement(results, 0) == 1;
  }

  /** A queue in which every item resolves to the same failure finishes
      with no successes, and every error event carries that failure's text. */
  lemma AllFailScenario(uris: seq<string>, results: seq<ProcessImageResult>, f: ProcessImageResult)
    requires |results| == |uris|
    requires forall j | 0 <= j < |results| :: results[j] == f
    requires !Succeeded(f)
    ensures var r := ProcessQueue(Processor(false, false), uris, results, Settles(|uris|));
      && r.halt.Done?
      && r.trace[|r.trace| - 1] == QueueComplete(0, |uris|)
      && forall a | 0 <= a < |r.trace| && r.trace[a].ImageError? :: r.trace[a].error == FailureText(f)
  {
    UninterruptedFinishes(results, 0, 0, 0, |uris|);
    var r := ProcessQueue(Processor(false, false), uris, results, Settles(|uris|));
    TallyOnceAtEnd(uris, results, Settles(|uris|), r);
    NoSuccesses(results, 0, |uris|);
    TallySplit(results, 0, |uris|);
    forall a | 0 <= a < |r.trace| && r.trace[a].ImageError?
      ensures r.trace[a].error == FailureText(f)
    {
      TraceAt(results, r, a);
    }
  }

  /** The server rejects every request (say, because it has no API key):
      the queue still runs to the end, reports no successes, and every item
      shows the rejection's message. */
  lemma MissingConfigurationScenario(uris: seq<string>, body: string)
    ensures var results := Resolve(seq(|uris|, k => Rejected(body)));
      var r := ProcessQueue(Processor(false, false), uris, results, Settles(|uris|));
      && r.halt.Done?
      && r.trace[|r.trace| - 1] == QueueComplete(0, |uris|)
      && forall a | 0 <= a < |r.trace| && r.trace[a].ImageError? ::
           r.trace[a].error == FailureText(ProcessSingleImage(Rejected(body)))
  {
    var replies := seq(|uris|, k => Rejected(body));
    var f := ProcessSingleImage(Rejected(body));
    RejectedFails(body);
    var results := Resolve(replies);
    assert forall j | 0 <= j < |results| :: results[j] == f by {
      forall j | 0 <= j < |results| ensures results[j] == f {
        assert replies[j] == Rejected(body);
      }
    }
    AllFailScenario(uris, results, f);
  }

  /** A rejected request never counts as a success. */
  lemma RejectedFails(body: string)
    ensures !Succeeded(ProcessSingleImage(Rejected(body)))
  {
  }

  lemma {:induction false} NoSuccesses(results: seq<ProcessImageResult>, i: nat, k: nat)
    requires i <= k <= |results|
    requires forall j | i <= j < k :: !Succeeded(results[j])
    ensures Successes(results, i, k) == 0
    decreases k - i
  {
    if i < k {
      NoSuccesses(results, i + 1, k);
    }
  }

  // ---------------------------------------------------------------------------
  // The error classification

  lemma NoHeadNoContains(s: string, t: string)
    requires |t| > 0 && t[0] !in s
    ensures !Text.Contains(s, t)
  {
    if Text.Contains(s, t) {
      Text.ContainsHead(s, t);
    }
  }

  /** Classification is stable: a message it produced, rethrown as a plain
      `Error`, classifies to itself. */
  predicate Unmarked(m: string) {
    !Text.Contains(m, "Network request failed") && !Text.Contains(m, "TypeError")
  }

  lemma UnmarkedWithout(m: string)
    requires 'N' !in m && 'T' !in m
    ensures Unmarked(m)
  {
    var n1 := "Network request failed";
    var t1 := "TypeError";
    assert n1[0] == 'N' && t1[0] == 'T';
    NoHeadNoContains(m, n1);
    NoHeadNoContains(m, t1);
  }

  lemma TimeoutPlain()
    ensures 'N' !in TimeoutMessage && 'T' !in TimeoutMessage
  {
  }

  lemma TimeoutMessageUnmarked()
    ensures Unmarked(TimeoutMessage)
  {
    TimeoutPlain();
    UnmarkedWithout(TimeoutMessage);
  }

  lemma ConnectionFrontPlain()
    ensures 'N' !in ConnectionFront && 'T' !in ConnectionFront
  {
  }

  lemma ConnectionBackPlain()
    ensures 'N' !in ConnectionBack && 'T' !in ConnectionBack
  {
  }

  lemma UnmarkedConcat(a: string, b: string)
    requires 'N' !in a && 'T' !in a && 'N' !in b && 'T' !in b
    ensures Unmarked(a + b)
  {
    UnmarkedWithout(a + b);
  }

  lemma ConnectionMessageUnmarked()
    ensures Unmarked(ConnectionMessage)
  {
    ConnectionFrontPlain();
    ConnectionBackPlain();
    UnmarkedConcat(ConnectionFront, ConnectionBack);
  }

  lemma UnexpectedPlain()
    ensures 'N' !in UnexpectedMessage && 'T' !in UnexpectedMessage
  {
  }

  lemma UnexpectedMessageUnmarked()
    ensures Unmarked(UnexpectedMessage)
  {
    UnexpectedPlain();
    UnmarkedWithout(UnexpectedMessage);
  }

  lemma ReadFailedPlain()
    ensures 'N' !in ReadFailedMessage && 'T' !in ReadFailedMessage
  {
  }

  /** When the returned image cannot be read, the reader's own message is
      what the item reports: it names neither a network failure nor a
      `TypeError`, so classification keeps it. */
  lemma ReadFailureReported()
    ensures ProcessSingleImage(Raised(ErrorObject("Error", ReadFailedMessage))).error == Some(ReadFailedMessage)
    ensures FailureText(ProcessSingleImage(Raised(ErrorObject("Error", ReadFailedMessage)))) == ReadFailedMessage
  {
    ReadFailedPlain();
    UnmarkedWithout(ReadFailedMessage);
  }

  lemma ReclassifyStable(f: Fault)
    ensures ErrorMessage(ErrorObject("Error", ErrorMessage(f))) == ErrorMessage(f)
  {
    var m := ErrorMessage(f);
    assert |"Error"| != |"AbortError"|;
    match f
    case NonErrorValue =>
      UnexpectedMessageUnmarked();
    case ErrorObject(name, message) =>
      if name == "AbortError" {
        TimeoutMessageUnmarked();
      } else if !Unmarked(message) {
        ConnectionMessageUnmarked();
      }
  }

  /** A rejected request always carries a non-blank message, so the
      `'Unknown error'` fallback is never needed for it. */
  lemma RejectionNeverBlank(bodyText: string)
    ensures ProcessSingleImage(Rejected(bodyText)).error.value != ""
    ensures FailureText(ProcessSingleImage(Rejected(bodyText))) == ProcessSingleImage(Rejected(bodyText)).error.value
  {
  }
}

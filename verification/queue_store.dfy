/** The queue state store: the pure state updates behind the batch queue
    context (client/contexts/BatchQueueContext.tsx). Each update maps the
    previous snapshot to the next one. */
module QueueStore {
  import opened Wrappers
  import opened BatchTypes

  /** The snapshot the provider starts from and `resetQueue` returns to. */
  const InitialState := BatchQueueState([], 0, false, false)

  /** `a ?? b`: a null or omitted update keeps the previous value. */
  function Coalesce<T>(update: Option<T>, previous: Option<T>): (r: Option<T>)
    ensures update.Some? ==> r == update
    ensures update.None? ==> r == previous
  {
    if update.Some? then update else previous
  }

  /** Appends one pending image per URI, in URI order. Ids and timestamps
      come from the clock and a random source in the app; here the caller
      supplies them. */
  function AddImages(s: BatchQueueState, uris: seq<string>, ids: seq<string>, stamps: seq<int>): (r: BatchQueueState)
    requires |ids| == |uris| && |stamps| == |uris|
    ensures |r.images| == |s.images| + |uris|
    ensures r.images[..|s.images|] == s.images
    ensures forall k | 0 <= k < |uris| ::
      var img := r.images[|s.images| + k];
      && img.id == ids[k]
      && img.originalUri == uris[k]
      && img.status == Pending
      && img.resultUri.None?
      && img.error.None?
      && img.timestamp == stamps[k]
    ensures r.currentIndex == s.currentIndex && r.isProcessing == s.isProcessing && r.isPaused == s.isPaused
  {
    var added := seq(|uris|, k requires 0 <= k < |uris| => BatchImage(ids[k], uris[k], None, Pending, None, stamps[k]));
    s.(images := s.images + added)
  }

  /** The images whose id differs from `id`, in their original order. */
  function WithoutId(images: seq<BatchImage>, id: string): (r: seq<BatchImage>)
    ensures |r| <= |images|
    ensures forall x :: x in r <==> x in images && x.id != id
    ensures (forall k | 0 <= k < |images| :: images[k].id != id) ==> r == images
    decreases |images|
  {
    if |images| == 0 then []
    else if images[0].id == id then WithoutId(images[1..], id)
    else [images[0]] + WithoutId(images[1..], id)
  }

  function RemoveImage(s: BatchQueueState, id: string): (r: BatchQueueState)
    ensures forall x :: x in r.images <==> x in s.images && x.id != id
    ensures (forall k | 0 <= k < |s.images| :: s.images[k].id != id) ==> r.images == s.images
    ensures r.currentIndex == s.currentIndex && r.isProcessing == s.isProcessing && r.isPaused == s.isPaused
  {
    s.(images := WithoutId(s.images, id))
  }

  /** The record `{ ...img, status, resultUri: resultUri ?? img.resultUri, error: error ?? img.error }`. */
  function Patched(img: BatchImage, status: ProcessingStatus, resultUri: Option<string>, error: Option<string>): BatchImage {
    img.(status := status, resultUri := Coalesce(resultUri, img.resultUri), error := Coalesce(error, img.error))
  }

  function UpdateImageStatus(s: BatchQueueState, id: string, status: ProcessingStatus,
                             resultUri: Option<string>, error: Option<string>): (r: BatchQueueState)
    ensures |r.images| == |s.images|
    ensures forall k | 0 <= k < |s.images| && s.images[k].id != id :: r.images[k] == s.images[k]
    ensures forall k | 0 <= k < |s.images| && s.images[k].id == id ::
      var before, after := s.images[k], r.images[k];
      && after.status == status
      && after.id == before.id && after.originalUri == before.originalUri && after.timestamp == before.timestamp
      && after.resultUri == (if resultUri.Some? then resultUri else before.resultUri)
      && after.error == (if error.Some? then error else before.error)
    ensures r.currentIndex == s.currentIndex && r.isProcessing == s.isProcessing && r.isPaused == s.isPaused
  {
    var images := seq(|s.images|, k requires 0 <= k < |s.images| =>
      if s.images[k].id == id then Patched(s.images[k], status, resultUri, error) else s.images[k]);
    s.(images := images)
  }

  function SetCurrentIndex(s: BatchQueueState, index: int): (r: BatchQueueState)
    ensures r.currentIndex == index
    ensures r.images == s.images && r.isProcessing == s.isProcessing && r.isPaused == s.isPaused
  {
    s.(currentIndex := index)
  }

  function SetIsProcessing(s: BatchQueueState, isProcessing: bool): (r: BatchQueueState)
    ensures r.isProcessing == isProcessing
    ensures r.images == s.images && r.currentIndex == s.currentIndex && r.isPaused == s.isPaused
  {
    s.(isProcessing := isProcessing)
  }

  function SetIsPaused(s: BatchQueueState, isPaused: bool): (r: BatchQueueState)
    ensures r.isPaused == isPaused
    ensures r.images == s.images && r.currentIndex == s.currentIndex && r.isProcessing == s.isProcessing
  {
    s.(isPaused := isPaused)
  }

  function ResetQueue(s: BatchQueueState): (r: BatchQueueState)
    ensures r.images == [] && r.currentIndex == 0 && !r.isProcessing && !r.isPaused
  {
    InitialState
  }

  // ---------------------------------------------------------------------------
  // Properties of the reducers

  /** Removal works piecewise, so it keeps the survivors in their order. */
  lemma {:induction false} WithoutIdConcat(a: seq<BatchImage>, b: seq<BatchImage>, id: string)
    ensures WithoutId(a + b, id) == WithoutId(a, id) + WithoutId(b, id)
    decreases |a|
  {
    if |a| == 0 {
      assert a + b == b;
    } else {
      assert (a + b)[1..] == a[1..] + b;
      WithoutIdConcat(a[1..], b, id);
    }
  }

  /** Removing an id twice is the same as removing it once. */
  lemma RemoveImageIdempotent(s: BatchQueueState, id: string)
    ensures RemoveImage(RemoveImage(s, id), id) == RemoveImage(s, id)
  {
    var once := RemoveImage(s, id);
    assert forall k | 0 <= k < |once.images| :: once.images[k].id != id by {
      forall k | 0 <= k < |once.images| ensures once.images[k].id != id {
        assert once.images[k] in once.images;
      }
    }
  }

  /** The number of images carrying `id`. */
  function CountId(images: seq<BatchImage>, id: string): nat
    decreases |images|
  {
    if |images| == 0 then 0 else (if images[0].id == id then 1 else 0) + CountId(images[1..], id)
  }

  /** Removal drops exactly the images carrying `id`. */
  lemma {:induction false} RemoveImageDropsExactlyMatches(images: seq<BatchImage>, id: string)
    ensures |WithoutId(images, id)| == |images| - CountId(images, id)
    decreases |images|
  {
    if |images| > 0 {
      RemoveImageDropsExactlyMatches(images[1..], id);
    }
  }

  /** An update never clears a result or an error that was already set. */
  lemma UpdateNeverClears(s: BatchQueueState, id: string, status: ProcessingStatus,
                          resultUri: Option<string>, error: Option<string>, k: nat)
    requires k < |s.images|
    ensures var r := UpdateImageStatus(s, id, status, resultUri, error);
      && (s.images[k].resultUri.Some? ==> r.images[k].resultUri.Some?)
      && (s.images[k].error.Some? ==> r.images[k].error.Some?)
  {
  }

  /** Applying the same update twice is the same as applying it once. */
  lemma UpdateIdempotent(s: BatchQueueState, id: string, status: ProcessingStatus,
                         resultUri: Option<string>, error: Option<string>)
    ensures var once := UpdateImageStatus(s, id, status, resultUri, error);
      UpdateImageStatus(once, id, status, resultUri, error) == once
  {
    var once := UpdateImageStatus(s, id, status, resultUri, error);
    var twice := UpdateImageStatus(once, id, status, resultUri, error);
    assert twice.images == once.images;
  }

  /** With distinct ids, updating the id of position `j` is a point update of
      that position. */
  lemma UpdateAt(s: BatchQueueState, j: nat, status: ProcessingStatus,
                 resultUri: Option<string>, error: Option<string>)
    requires DistinctIds(s.images)
    requires j < |s.images|
    ensures UpdateImageStatus(s, s.images[j].id, status, resultUri, error)
         == s.(images := s.images[j := Patched(s.images[j], status, resultUri, error)])
  {
    var r := UpdateImageStatus(s, s.images[j].id, status, resultUri, error);
    assert r.images == s.images[j := Patched(s.images[j], status, resultUri, error)];
  }

  /** Resetting forgets everything: any two snapshots reset to the same one. */
  lemma ResetForgetsEverything(s: BatchQueueState, t: BatchQueueState)
    ensures ResetQueue(s) == ResetQueue(t) == InitialState
  {
  }
}

/** The records the batch queue is built from (client/types/batch.ts). */
module BatchTypes {
  import opened Wrappers

  datatype ProcessingStatus = Pending | Processing | Completed | Failed

  /** One queued photograph. `resultUri` and `error` are nullable. */
  datatype BatchImage = BatchImage(
    id: string,
    originalUri: string,
    resultUri: Option<string>,
    status: ProcessingStatus,
    error: Option<string>,
    timestamp: int)

  datatype BatchQueueState = BatchQueueState(
    images: seq<BatchImage>,
    currentIndex: int,
    isProcessing: bool,
    isPaused: bool)

  /** No two queued images share an id. The store does not enforce this (ids
      come from the clock and a random suffix); results that need it say so. */
  predicate DistinctIds(images: seq<BatchImage>) {
    forall a, b | 0 <= a < b < |images| :: images[a].id != images[b].id
  }

  /** The ids of the queued images, in queue order. */
  function Ids(images: seq<BatchImage>): (ids: seq<string>)
    ensures |ids| == |images|
    ensures forall k | 0 <= k < |images| :: ids[k] == images[k].id
  {
    seq(|images|, k requires 0 <= k < |images| => images[k].id)
  }
}

/** The refresh bookkeeping of client/components/image-results.tsx: the set of ids
    whose details are being fetched again, and `handleRefresh`. */
module Refresh {
  import opened Records

  /** The component's `refreshingIds` state. The fetch and the optional
      `onImageUpdate` callback are outside it: the fetch result is a parameter
      (`None` when it fails) and the value passed to the callback is returned. */
  class RefreshTracker {
    var refreshingIds: set<int>

    constructor ()
      ensures refreshingIds == {}
    {
      refreshingIds := {};
    }

    /** The refresh button of a row is disabled exactly while its id is in the set. */
    predicate RefreshDisabled(imageId: int)
      reads this
    {
      imageId in refreshingIds
    }

    /** The part of `handleRefresh` before the fetch: adds the id. */
    method BeginRefresh(imageId: int)
      modifies this
      ensures refreshingIds == old(refreshingIds) + {imageId}
      ensures RefreshDisabled(imageId)
    {
      refreshingIds := refreshingIds + {imageId};
    }

    /** The part of `handleRefresh` after the fetch settles: the fetched record goes to
        `onImageUpdate` only when the fetch succeeded and a callback was given; then
        the `finally` block removes the id, on success and on failure alike. */
    method CompleteRefresh(imageId: int, fetched: Option<ImageResult>, hasCallback: bool)
      returns (update: Option<ImageResult>)
      modifies this
      ensures update == if fetched.Some? && hasCallback then fetched else None
      ensures refreshingIds == old(refreshingIds) - {imageId}
      ensures !RefreshDisabled(imageId)
    {
      update := None;
      if fetched.Some? && hasCallback {
        update := fetched;
      }
      refreshingIds := refreshingIds - {imageId};
    }

    /** `handleRefresh(imageId)` when nothing else runs meanwhile: the id is in the set
        while the fetch is in flight (`during`), and afterwards the set is as before
        without the id; no other id is added or removed. */
    method HandleRefresh(imageId: int, fetched: Option<ImageResult>, hasCallback: bool)
      returns (update: Option<ImageResult>, ghost during: set<int>)
      modifies this
      ensures during == old(refreshingIds) + {imageId} && imageId in during
      ensures update == if fetched.Some? && hasCallback then fetched else None
      ensures refreshingIds == old(refreshingIds) - {imageId}
      ensures forall id :: id != imageId ==> (id in refreshingIds <==> id in old(refreshingIds))
    {
      BeginRefresh(imageId);
      during := refreshingIds;
      update := CompleteRefresh(imageId, fetched, hasCallback);
    }

    /** The set does not count: two refreshes of one id started before either
        completes, and the first completion already re-enables the button. */
    method OverlappingRefreshes(imageId: int, first: Option<ImageResult>)
      returns (update: Option<ImageResult>)
      modifies this
      ensures !RefreshDisabled(imageId)
      ensures refreshingIds == old(refreshingIds) - {imageId}
      ensures update == first
    {
      BeginRefresh(imageId);
      BeginRefresh(imageId);
      update := CompleteRefresh(imageId, first, true);
    }
  }
}

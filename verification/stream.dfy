/** A forward-only stream of `count` items (archive entries, video frames),
    positioned at the item it delivers next. */
module Stream {

  /** Skips items one at a time from position `cur` until the position is
      `target` or the stream is exhausted. */
  function ScanForward(cur: nat, target: int, count: nat): (r: nat)
    requires cur <= count
    decreases count - cur
    ensures cur <= r <= count
    ensures target <= cur ==> r == cur
    ensures cur < target ==> r == if target < count then target else count
  {
    if target > cur && cur < count then ScanForward(cur + 1, target, count) else cur
  }
}

/** The scroll animation pass: which items have their animation running. */
module Animation {
  import opened Dom

  /** The item's box meets the viewport vertically. */
  predicate IsVisible(r: Rect, viewportHeight: int)
    ensures r.top >= viewportHeight ==> !IsVisible(r, viewportHeight)
    ensures r.bottom <= 0 ==> !IsVisible(r, viewportHeight)
    ensures r.top < viewportHeight && r.bottom > 0 ==> IsVisible(r, viewportHeight)
  {
    r.top < viewportHeight && r.bottom > 0
  }

  /** The `running` flags after one pass over the items. */
  function RunningAfterScan(running: seq<bool>, hidden: seq<bool>, rects: seq<Rect>, viewportHeight: int): (r: seq<bool>)
    requires |hidden| == |running| && |rects| == |running|
    ensures |r| == |running|
  {
    seq(|running|, j requires 0 <= j < |running| =>
      running[j] || (!hidden[j] && IsVisible(rects[j], viewportHeight)))
  }

  /** A pass starts the animation of every visible item that is not hidden,
      leaves every other item as it was, and never stops an animation. */
  lemma ScanEffect(running: seq<bool>, hidden: seq<bool>, rects: seq<Rect>, viewportHeight: int, j: nat)
    requires |hidden| == |running| && |rects| == |running| && j < |running|
    ensures !hidden[j] && IsVisible(rects[j], viewportHeight) ==> RunningAfterScan(running, hidden, rects, viewportHeight)[j]
    ensures hidden[j] || !IsVisible(rects[j], viewportHeight) ==> RunningAfterScan(running, hidden, rects, viewportHeight)[j] == running[j]
    ensures running[j] ==> RunningAfterScan(running, hidden, rects, viewportHeight)[j]
  {
  }

  /** A second pass over an unchanged layout changes nothing. */
  lemma ScanIdempotent(running: seq<bool>, hidden: seq<bool>, rects: seq<Rect>, viewportHeight: int)
    requires |hidden| == |running| && |rects| == |running|
    ensures var once := RunningAfterScan(running, hidden, rects, viewportHeight);
            RunningAfterScan(once, hidden, rects, viewportHeight) == once
  {
  }
}

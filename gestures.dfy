/** The swipe recogniser's classification rule: a finished gesture, given by
    its horizontal and vertical displacement and its duration, is a left
    swipe, a right swipe or nothing. */
module Gestures {

  /** Minimum horizontal distance, in pixels (the carousel's `threshold`). */
  const Threshold: int := 50
  /** Maximum vertical drift, in pixels (the carousel's `restraint`). */
  const Restraint: int := 100
  /** Maximum duration, in milliseconds (the carousel's `allowedTime`). */
  const AllowedTime: int := 300

  datatype Swipe = SwipeLeft | SwipeRight | NoSwipe

  /** JavaScript's `Math.abs` on integers. */
  function Abs(x: int): (r: nat)
    ensures r == x || r == -x
  {
    if x < 0 then -x else x
  }

  /** The gesture is quick enough, long enough sideways and flat enough. */
  predicate Qualifies(dx: int, dy: int, elapsed: int) {
    elapsed <= AllowedTime && Abs(dx) >= Threshold && Abs(dy) <= Restraint
  }

  /** The nested tests of the carousel's swipe handler: time first, then
      distance and drift, then the sign of the horizontal distance. */
  function Classify(dx: int, dy: int, elapsed: int): (s: Swipe)
    ensures s == SwipeRight <==> Qualifies(dx, dy, elapsed) && dx > 0
    ensures s == SwipeLeft <==> Qualifies(dx, dy, elapsed) && dx < 0
    ensures s == NoSwipe <==> !Qualifies(dx, dy, elapsed)
  {
    if elapsed <= AllowedTime then
      if Abs(dx) >= Threshold && Abs(dy) <= Restraint then
        if dx > 0 then SwipeRight else SwipeLeft
      else NoSwipe
    else NoSwipe
  }

  /** A gesture with no horizontal displacement never changes the slide,
      whatever its vertical drift and duration. */
  lemma NoHorizontalMotionNoSwipe(dy: int, elapsed: int)
    ensures Classify(0, dy, elapsed) == NoSwipe
  {
  }

  /** Mirroring a gesture left to right swaps its direction and keeps
      everything else. */
  lemma MirrorSwapsDirection(dx: int, dy: int, elapsed: int)
    ensures Classify(dx, dy, elapsed) == SwipeLeft <==> Classify(-dx, dy, elapsed) == SwipeRight
    ensures Classify(dx, dy, elapsed) == NoSwipe <==> Classify(-dx, dy, elapsed) == NoSwipe
  {
  }

  /** A qualifying gesture still qualifies, with the same direction, when it
      is done faster, travels further sideways or drifts less. */
  lemma StrongerGestureSameSwipe(dx: int, dy: int, elapsed: int, dx': int, dy': int, elapsed': int)
    requires Classify(dx, dy, elapsed) != NoSwipe
    requires elapsed' <= elapsed && Abs(dy') <= Abs(dy)
    requires (dx > 0 && dx' >= dx) || (dx < 0 && dx' <= dx)
    ensures Classify(dx', dy', elapsed') == Classify(dx, dy, elapsed)
  {
  }

  /** The worked cases: a quick flat flick of 60 pixels either way is a
      swipe; one that is too short, too slow or too steep is not. */
  lemma ClassifyExamples()
    ensures Classify(-60, 10, 200) == SwipeLeft
    ensures Classify(60, 10, 200) == SwipeRight
    ensures Classify(30, 5, 200) == NoSwipe
    ensures Classify(-60, 10, 400) == NoSwipe
    ensures Classify(-60, 150, 200) == NoSwipe
  {
  }

  /** The boundaries are inclusive: exactly 50 pixels, exactly 100 pixels of
      drift and exactly 300 milliseconds still make a swipe. */
  lemma ThresholdsInclusive()
    ensures Classify(-50, 100, 300) == SwipeLeft
    ensures Classify(50, -100, 300) == SwipeRight
    ensures Classify(49, 0, 0) == NoSwipe
    ensures Classify(-50, 101, 0) == NoSwipe
    ensures Classify(-50, 0, 301) == NoSwipe
  {
  }
}

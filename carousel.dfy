/** The carousel widget: the slide index, the in-flight gesture, the
    rendered view (track offset, indicators, button states) and the log of
    interaction reports sent to the analytics sink. */
module SwipeCarousel {
  import Slides
  import Gestures

  /** One interaction report: an event label and a one-based slide number. */
  type Report = (string, int)

  class Carousel {
    /** Number of slides (four on the page; any positive number here). */
    const totalSlides: int
    /** Whether the analytics object is present on the page. It is defined
        once, when the analytics script loads, and never removed, so it does
        not change during the carousel's lifetime. */
    const analyticsPresent: bool
    /** The `active` class of each indicator, one indicator per slide. */
    const indicatorActive: array<bool>

    var currentSlide: int

    // The gesture being recognised.
    var startX: int
    var startY: int
    var startTime: int
    var distX: int
    var distY: int
    var elapsedTime: int
    var isMouseDown: bool

    // The rendered view.
    /** The track's horizontal translation, in percent. */
    var translateX: int
    var prevDisabled: bool
    var nextDisabled: bool

    /** Every report handed to the analytics sink, oldest first. */
    ghost var reports: seq<Report>

    /** The slide index is in range and there is one indicator per slide. */
    ghost predicate WellFormed()
      reads this
    {
      0 < totalSlides &&
      0 <= currentSlide < totalSlides &&
      indicatorActive.Length == totalSlides
    }

    /** The object invariant. Between gestures (no mouse button held) the
        displacement is zero: every gesture end resets it, and only a mouse
        move with the button held sets it. */
    ghost predicate Valid()
      reads this
    {
      WellFormed() && (!isMouseDown ==> distX == 0 && distY == 0)
    }

    /** The view shows the current slide. */
    ghost predicate Rendered()
      reads this, indicatorActive
    {
      translateX == -currentSlide * 100 &&
      (forall k :: 0 <= k < indicatorActive.Length ==> indicatorActive[k] == (k == currentSlide)) &&
      prevDisabled == (currentSlide == 0) &&
      nextDisabled == (currentSlide == totalSlides - 1)
    }

    /** What a rendered view shows: exactly one indicator is active, the
        track is shifted by a whole number of slide widths within the track,
        and the two buttons are disabled together only on a one-slide
        carousel. */
    lemma RenderedView()
      requires WellFormed() && Rendered()
      ensures indicatorActive[currentSlide]
      ensures forall k :: 0 <= k < indicatorActive.Length && indicatorActive[k] ==> k == currentSlide
      ensures -(totalSlides - 1) * 100 <= translateX <= 0 && translateX % 100 == 0
      ensures prevDisabled && nextDisabled <==> totalSlides == 1
    {
    }

    /** What reporting `event` for slide index `k` appends to the log: one
        report with the one-based slide number, or nothing when analytics is
        absent. */
    function ReportOf(event: string, k: int): seq<Report>
    {
      if analyticsPresent then [(event, k + 1)] else []
    }

    /** The slide and the log after a gesture classified as `s`, starting
        from slide `k0` and log `log0`. A right swipe behaves exactly as
        PrevSlide and a left swipe exactly as NextSlide, each followed by a
        second, swipe-specific report for the same new slide. */
    ghost predicate AfterSwipe(s: Gestures.Swipe, k0: int, log0: seq<Report>)
      reads this
      requires 0 <= k0 < totalSlides
    {
      match s
      case SwipeRight =>
        currentSlide == Slides.Prev(k0, totalSlides) &&
        reports == log0 + ReportOf("previous_slide", currentSlide) + ReportOf("swipe_right", currentSlide)
      case SwipeLeft =>
        currentSlide == Slides.Next(k0, totalSlides) &&
        reports == log0 + ReportOf("next_slide", currentSlide) + ReportOf("swipe_left", currentSlide)
      case NoSwipe =>
        currentSlide == k0 && reports == log0
    }

    /** Creates the carousel on the first slide and renders it. */
    constructor (n: int, analytics: bool)
      requires 0 < n
      ensures Valid() && Rendered()
      ensures totalSlides == n && analyticsPresent == analytics && fresh(indicatorActive)
      ensures currentSlide == 0 && !isMouseDown && reports == []
      ensures startX == 0 && startY == 0 && startTime == 0 && elapsedTime == 0
    {
      totalSlides := n;
      analyticsPresent := analytics;
      indicatorActive := new bool[n];
      currentSlide := 0;
      startX, startY := 0, 0;
      distX, distY := 0, 0;
      elapsedTime, startTime := 0, 0;
      isMouseDown := false;
      reports := [];
      new;
      UpdateCarousel();
    }

    /** Derives the view from the current slide. */
    method UpdateCarousel()
      requires WellFormed()
      modifies this`translateX, this`prevDisabled, this`nextDisabled, indicatorActive
      ensures WellFormed() && Rendered()
      ensures old(Valid()) ==> Valid()
    {
      translateX := -currentSlide * 100;
      var i := 0;
      while i < indicatorActive.Length
        modifies indicatorActive
        invariant 0 <= i <= indicatorActive.Length
        invariant forall k :: 0 <= k < i ==> indicatorActive[k] == (k == currentSlide)
      {
        indicatorActive[i] := i == currentSlide;
        i := i + 1;
      }
      prevDisabled := currentSlide == 0;
      nextDisabled := currentSlide == totalSlides - 1;
    }

    /** Moves to the next slide, wrapping from the last to the first. */
    method NextSlide()
      requires WellFormed()
      modifies this`currentSlide, this`translateX, this`prevDisabled, this`nextDisabled, this`reports, indicatorActive
      ensures WellFormed() && Rendered()
      ensures old(Valid()) ==> Valid()
      ensures currentSlide == Slides.Next(old(currentSlide), totalSlides)
      ensures reports == old(reports) + ReportOf("next_slide", currentSlide)
    {
      currentSlide := (currentSlide + 1) % totalSlides;
      UpdateCarousel();
      if analyticsPresent {
        reports := reports + [("next_slide", currentSlide + 1)];
      }
    }

    /** Moves to the previous slide, wrapping from the first to the last. */
    method PrevSlide()
      requires WellFormed()
      modifies this`currentSlide, this`translateX, this`prevDisabled, this`nextDisabled, this`reports, indicatorActive
      ensures WellFormed() && Rendered()
      ensures old(Valid()) ==> Valid()
      ensures currentSlide == Slides.Prev(old(currentSlide), totalSlides)
      ensures reports == old(reports) + ReportOf("previous_slide", currentSlide)
    {
      currentSlide := (currentSlide - 1 + totalSlides) % totalSlides;
      UpdateCarousel();
      if analyticsPresent {
        reports := reports + [("previous_slide", currentSlide + 1)];
      }
    }

    /** Jumps to slide `slideIndex`, whatever slide was shown before. The
        index comes from the position of a clicked indicator, so it is
        always a valid slide index. */
    method GoToSlide(slideIndex: int)
      requires WellFormed()
      requires 0 <= slideIndex < totalSlides
      modifies this`currentSlide, this`translateX, this`prevDisabled, this`nextDisabled, this`reports, indicatorActive
      ensures WellFormed() && Rendered()
      ensures old(Valid()) ==> Valid()
      ensures currentSlide == slideIndex
      ensures reports == old(reports) + ReportOf("goto_slide", slideIndex)
    {
      currentSlide := slideIndex;
      UpdateCarousel();
      if analyticsPresent {
        reports := reports + [("goto_slide", slideIndex + 1)];
      }
    }

    /** Classifies the finished gesture, changes the slide if it is a swipe,
        and resets the displacement whatever the outcome. */
    method HandleSwipe()
      requires WellFormed() && Rendered()
      modifies this`currentSlide, this`translateX, this`prevDisabled, this`nextDisabled, this`reports, indicatorActive
      modifies this`distX, this`distY
      ensures Valid() && Rendered()
      ensures AfterSwipe(Gestures.Classify(old(distX), old(distY), old(elapsedTime)), old(currentSlide), old(reports))
      ensures distX == 0 && distY == 0
    {
      if elapsedTime <= Gestures.AllowedTime {
        if Gestures.Abs(distX) >= Gestures.Threshold && Gestures.Abs(distY) <= Gestures.Restraint {
          if distX > 0 {
            PrevSlide();
            if analyticsPresent {
              reports := reports + [("swipe_right", currentSlide + 1)];
            }
          } else {
            NextSlide();
            if analyticsPresent {
              reports := reports + [("swipe_left", currentSlide + 1)];
            }
          }
        }
      }
      distX := 0;
      distY := 0;
    }

    /** Records where and when a touch began. The displacement is left as
        it was. */
    method HandleTouchStart(pageX: int, pageY: int, now: int)
      requires Valid()
      modifies this`startX, this`startY, this`startTime
      ensures Valid()
      ensures startX == pageX && startY == pageY && startTime == now
    {
      startX := pageX;
      startY := pageY;
      startTime := now;
    }

    /** A touch move changes nothing; it only decides whether to ask the
        browser not to scroll, which it would do for a mostly horizontal
        displacement. Touch moves never record a displacement, so outside a
        mouse drag the answer is always no. */
    method HandleTouchMove() returns (preventScroll: bool)
      requires Valid()
      ensures preventScroll == (Gestures.Abs(distX) > Gestures.Abs(distY))
      ensures !isMouseDown ==> !preventScroll
    {
      preventScroll := Gestures.Abs(distX) > Gestures.Abs(distY);
    }

    /** Ends a touch at `(pageX, pageY)` at time `now` and classifies it. */
    method HandleTouchEnd(pageX: int, pageY: int, now: int)
      requires Valid() && Rendered()
      modifies this`currentSlide, this`translateX, this`prevDisabled, this`nextDisabled, this`reports, indicatorActive
      modifies this`distX, this`distY, this`elapsedTime
      ensures Valid() && Rendered()
      ensures elapsedTime == now - startTime
      ensures AfterSwipe(Gestures.Classify(pageX - startX, pageY - startY, now - startTime), old(currentSlide), old(reports))
      ensures distX == 0 && distY == 0
    {
      distX := pageX - startX;
      distY := pageY - startY;
      elapsedTime := now - startTime;
      HandleSwipe();
    }
    /** Starts a mouse drag at `(pageX, pageY)` at time `now`. The
        displacement is left as it was. */
    method HandleMouseDown(pageX: int, pageY: int, now: int)
      requires Valid()
      modifies this`isMouseDown, this`startX, this`startY, this`startTime
      ensures Valid()
      ensures isMouseDown
      ensures startX == pageX && startY == pageY && startTime == now
    {
      isMouseDown := true;
      startX := pageX;
      startY := pageY;
      startTime := now;
    }

    /** Records the displacement of a drag in progress; ignored when no
        mouse button is held. */
    method HandleMouseMove(pageX: int, pageY: int)
      requires Valid()
      modifies this`distX, this`distY
      ensures Valid()
      ensures old(isMouseDown) ==> distX == pageX - startX && distY == pageY - startY
      ensures !old(isMouseDown) ==> unchanged(this)
    {
      if !isMouseDown {
        return;
      }
      distX := pageX - startX;
      distY := pageY - startY;
    }

    /** Ends a drag at `(pageX, pageY)` at time `now` (button released or
        pointer left the carousel) and classifies it. Ignored when no mouse
        button is held; otherwise the button is no longer held afterwards,
        so a second end event for the same drag does nothing. */
    method HandleMouseEnd(pageX: int, pageY: int, now: int)
      requires Valid() && Rendered()
      modifies this`currentSlide, this`translateX, this`prevDisabled, this`nextDisabled, this`reports, indicatorActive
      modifies this`isMouseDown, this`distX, this`distY, this`elapsedTime
      ensures Valid() && Rendered()
      ensures !isMouseDown
      ensures old(isMouseDown) ==> elapsedTime == now - startTime
      ensures old(isMouseDown) ==>
        AfterSwipe(Gestures.Classify(pageX - startX, pageY - startY, now - startTime), old(currentSlide), old(reports))
      ensures !old(isMouseDown) ==> unchanged(this) && unchanged(indicatorActive)
    {
      if !isMouseDown {
        return;
      }
      isMouseDown := false;
      distX := pageX - startX;
      distY := pageY - startY;
      elapsedTime := now - startTime;
      HandleSwipe();
    }
  }

  /** The carousel's `mouseup` and `mouseleave` both end a drag. A release
      followed by the pointer leaving the carousel changes the slide and the
      log at most once: the leave finds no button held and does nothing. */
  method ReleaseThenLeave(c: Carousel, upX: int, upY: int, upTime: int, leaveX: int, leaveY: int, leaveTime: int)
    requires c.Valid() && c.Rendered() && c.isMouseDown
    modifies c`currentSlide, c`translateX, c`prevDisabled, c`nextDisabled, c`reports, c.indicatorActive
    modifies c`isMouseDown, c`distX, c`distY, c`elapsedTime
    ensures c.Valid() && c.Rendered() && !c.isMouseDown
    ensures c.AfterSwipe(Gestures.Classify(upX - c.startX, upY - c.startY, upTime - c.startTime), old(c.currentSlide), old(c.reports))
  {
    c.HandleMouseEnd(upX, upY, upTime);
    c.HandleMouseEnd(leaveX, leaveY, leaveTime);
  }
}

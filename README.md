# Swipe carousel

A model of the `Carousel` class of the site's script bundle (`js/carousel.js`):
a slide carousel whose index is moved by "previous"/"next" buttons, by
indicator clicks and by horizontal swipes, which renders the current slide
(track offset, active indicator, disabled buttons) and reports every
transition to an analytics sink.

The model has three modules:

- `Slides` (`slides.dfy`): the wrap-around index arithmetic of `nextSlide`
  and `prevSlide`, as functions, with what repeating them amounts to.
- `Gestures` (`gestures.dfy`): the three thresholds (50 pixels of horizontal
  distance, 100 pixels of vertical drift, 300 milliseconds) and the swipe
  classification of `handleSwipe` as a pure function.
- `SwipeCarousel` (`carousel.dfy`): the `Carousel` class itself. Its fields
  are the source's fields (`currentSlide`, `startX`, `startY`, `startTime`,
  `distX`, `distY`, `elapsedTime`, `isMouseDown`) plus the DOM effects:
  `translateX` for the track's transform, an `array<bool>` for the
  indicators' `active` class, `prevDisabled` and `nextDisabled` for the
  buttons. The analytics sink is a ghost log `reports` of `(event, slide)`
  pairs; `analyticsPresent` stands for the check that the analytics object
  exists on the page. The source repeats that check at every report, but
  the object is assigned once, when `js/analytics.js` loads (line 227), and
  never removed, so presence is a constant for the carousel's lifetime. The methods change the fields in the source's order
  and say exactly what the new state is.

Modelling choices:

- The slide count, hard-coded as 4, is any positive number, with one
  indicator per slide.
- Page coordinates and timestamps are integer parameters of the event
  handlers instead of event objects and clock reads.
- Both `%` operations of the source have non-negative operands, so
  JavaScript's truncating remainder and Dafny's Euclidean one agree.
- `goToSlide` has no bounds check; its argument is always the position of
  an indicator, so the model requires `0 <= slideIndex < totalSlides`.
- The object invariant `Valid()` adds one fact that holds in the source
  without being stated there: between events, with no mouse button held,
  the displacement `distX`, `distY` is zero. A touch end or mouse end sets
  it only just before `handleSwipe` resets it, and a mouse move sets it
  only while the button is held.

Note that the code:

- Produces two reports for a successful swipe. The navigation report
  (`next_slide` or `previous_slide`) comes first, then `swipe_left` or
  `swipe_right`, both with the new one-based slide number.
- Does not reset the displacement when a gesture starts
  (`handleTouchStart`, `handleMouseDown`).
- Never records a displacement in `handleTouchMove`, which only decides whether to
  ask the browser not to scroll, and since the displacement is zero outside
  a mouse drag, that answer is always no for touch input.

## Model

| member | source | states |
|---|---|---|
| `Slides.Next` | js/carousel.js:148 | the next index stays in `[0, n)` and is `k + 1`, except that the last slide wraps to 0 |
| `Slides.Prev` | js/carousel.js:158 | the previous index stays in `[0, n)` and is `k - 1`, except that slide 0 wraps to `n - 1` |
| `Slides.PrevUndoesNext` | js/carousel.js:147-165 | "previous" after "next" restores the index, and "next" after "previous" does too |
| `Slides.WrapAround` | js/carousel.js:147-165 | "next" from the last slide gives 0 and "previous" from slide 0 gives the last slide |
| `Slides.AdvanceIsShift` | js/carousel.js:147-155 | pressing "next" `steps` times from `k` lands on `(k + steps) mod n` |
| `Slides.RetreatIsShift` | js/carousel.js:157-165 | pressing "previous" `steps` times from `k` lands on the non-negative `(k - steps) mod n` |
| `Slides.FullLap` | js/carousel.js:147-165 | `n` presses in either direction return to the starting slide |
| `Gestures.Classify` | js/carousel.js:121-140 | a gesture is a right swipe iff it qualifies (time <= 300, horizontal distance >= 50, vertical drift <= 100) and moves right, a left swipe iff it qualifies and moves left, and nothing iff it does not qualify |
| `Gestures.NoHorizontalMotionNoSwipe` | js/carousel.js:123-124 | zero horizontal displacement is never a swipe, whatever the drift and duration |
| `Gestures.MirrorSwapsDirection` | js/carousel.js:122-138 | mirroring a gesture swaps left and right and keeps "no swipe" |
| `Gestures.StrongerGestureSameSwipe` | js/carousel.js:122-124 | a swipe stays the same swipe when faster, longer in its direction or flatter |
| `Gestures.ClassifyExamples` | js/carousel.js:122-138 | quick flat 60-pixel flicks are swipes; 30 pixels, 400 ms or 150 pixels of drift are not |
| `Gestures.ThresholdsInclusive` | js/carousel.js:15-17 | exactly 50 pixels, 100 pixels of drift and 300 ms still make a swipe; one unit beyond does not |
| `SwipeCarousel.Carousel.constructor` | js/carousel.js:2-22 | a new carousel is on slide 0 with no gesture, an empty log and a rendered view |
| `SwipeCarousel.Carousel.UpdateCarousel` | js/carousel.js:177-190 | afterwards the track offset is `-currentSlide * 100`, indicator `k` is active iff `k == currentSlide`, "previous" is disabled iff on slide 0 and "next" iff on the last slide; nothing else changes |
| `SwipeCarousel.Carousel.RenderedView` | js/carousel.js:179-189 | in a rendered view exactly one indicator is active, the offset is a whole slide width within the track, and both buttons are disabled only with a single slide |
| `SwipeCarousel.Carousel.NextSlide` | js/carousel.js:147-155 | the index becomes `Slides.Next` of the old one, the view is rendered, and `("next_slide", new index + 1)` is logged when analytics is present |
| `SwipeCarousel.Carousel.PrevSlide` | js/carousel.js:157-165 | the index becomes `Slides.Prev` of the old one, the view is rendered, and `("previous_slide", new index + 1)` is logged when analytics is present |
| `SwipeCarousel.Carousel.GoToSlide` | js/carousel.js:167-175 | the index becomes the given one whatever it was, the view is rendered, and `("goto_slide", index + 1)` is logged when analytics is present |
| `SwipeCarousel.Carousel.HandleSwipe` | js/carousel.js:121-145 | a right swipe acts exactly as `PrevSlide` and a left swipe exactly as `NextSlide`, each followed by a `swipe_right`/`swipe_left` report for the same new slide; otherwise the slide and the log are unchanged; the displacement is zero afterwards in every case |
| `SwipeCarousel.Carousel.HandleTouchStart` | js/carousel.js:64-69 | the start position and time are the touch's, and nothing else changes |
| `SwipeCarousel.Carousel.HandleTouchMove` | js/carousel.js:71-76 | nothing changes; scrolling would be suppressed iff the displacement is more horizontal than vertical, which never holds outside a mouse drag |
| `SwipeCarousel.Carousel.HandleTouchEnd` | js/carousel.js:78-85 | the gesture from the start point to the end point over the elapsed time is classified and applied as `HandleSwipe` does |
| `SwipeCarousel.Carousel.HandleMouseDown` | js/carousel.js:87-95 | the button is held and the start position and time are the pointer's |
| `SwipeCarousel.Carousel.HandleMouseMove` | js/carousel.js:97-107 | with the button held the displacement from the start is recorded; otherwise nothing changes |
| `SwipeCarousel.Carousel.HandleMouseEnd` | js/carousel.js:109-119 | with the button held the drag is classified and applied as `HandleSwipe` does and the button is released; otherwise nothing changes |
| `SwipeCarousel.ReleaseThenLeave` | js/carousel.js:51-52 | a `mouseup` followed by a `mouseleave` applies the drag once: the slide and log are those of the single classified gesture |

## Left out

- Listener registration in `init` and `addSwipeListeners`: browser binding boilerplate; the handlers are modelled as methods a caller invokes.
- The cursor style changes, the user-select styles, the context-menu suppression and the `preventDefault` calls themselves: cosmetic browser effects. `HandleTouchMove` returns the decision to call `preventDefault` instead.
- `js/analytics.js` (script loading, consent checks, the third-party SDK, engagement timers): I/O and foreign calls. Reporting is an append to the ghost log `reports`.
- Clock reads and event objects: timestamps and coordinates are parameters.
- Fractional page coordinates and double-precision arithmetic: coordinates and times are unbounded integers, so no rounding or overflow is modelled.
- The DOM elements themselves: the track transform is the integer percentage `translateX`, the indicators an array of booleans, the buttons two booleans.

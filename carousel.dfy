/** The project carousel: a cyclic index over the list of showcased apps, a
    slide direction for the transition, and touch-swipe navigation. */
module Carousel {
  import opened Wrappers

  /** `minSwipeDistance`, in pixels. */
  const MinSwipeDistance: real := 50.0

  /** `(prev + 1) % n`: the following slide, wrapping from the last to the
      first. */
  function Next(i: int, n: nat): (r: int)
    requires 0 <= i < n
    ensures 0 <= r < n
    ensures r == i + 1 || (i == n - 1 && r == 0)
  {
    (i + 1) % n
  }

  /** `(prev - 1 + n) % n`: the preceding slide, wrapping from the first to
      the last. */
  function Prev(i: int, n: nat): (r: int)
    requires 0 <= i < n
    ensures 0 <= r < n
    ensures r == i - 1 || (i == 0 && r == n - 1)
  {
    (i - 1 + n) % n
  }

  lemma PrevUndoesNext(i: int, n: nat)
    requires 0 <= i < n
    ensures Prev(Next(i, n), n) == i
  {
  }

  lemma NextUndoesPrev(i: int, n: nat)
    requires 0 <= i < n
    ensures Next(Prev(i, n), n) == i
  {
  }

  /** `k` presses of "next". */
  function NextTimes(i: int, n: nat, k: nat): (r: int)
    requires 0 <= i < n
    ensures 0 <= r < n
  {
    if k == 0 then i else Next(NextTimes(i, n, k - 1), n)
  }

  /** Within one cycle, pressing "next" `k` times moves `k` places forward,
      wrapping past the last slide at most once. */
  lemma {:induction false} NextTimesWithinCycle(i: int, n: nat, k: nat)
    requires 0 <= i < n && k <= n
    ensures NextTimes(i, n, k) == if i + k < n then i + k else i + k - n
  {
    if k > 0 {
      NextTimesWithinCycle(i, n, k - 1);
    }
  }

  /** Pressing "next" once per slide comes back to the starting slide. */
  lemma FullCycle(i: int, n: nat)
    requires 0 <= i < n
    ensures NextTimes(i, n, n) == i
  {
    NextTimesWithinCycle(i, n, n);
  }

  /** The direction `goToSlide` records: forward only when moving to a higher
      index; going to the current slide counts as backward. */
  function GoDirection(index: int, current: int): (d: int)
    ensures d == 1 || d == -1
    ensures d == 1 <==> index > current
  {
    if index > current then 1 else -1
  }

  /** What a finished touch does. */
  datatype Swipe = Advance | Retreat | Stay

  /** JavaScript truthiness of a touch coordinate: `null` and `0` are both
      falsy. */
  predicate Truthy(x: Option<real>) { x.Some? && x.value != 0.0 }

  /** `onTouchEnd`'s decision: nothing unless both coordinates are truthy;
      a leftward drag longer than the threshold advances, a rightward one
      goes back. */
  function SwipeOf(start: Option<real>, end: Option<real>): (w: Swipe)
    ensures w != Stay ==> Truthy(start) && Truthy(end)
    ensures w == Advance <==> Truthy(start) && Truthy(end) && start.value - end.value > MinSwipeDistance
    ensures w == Retreat <==> Truthy(start) && Truthy(end) && start.value - end.value < -MinSwipeDistance
  {
    if !Truthy(start) || !Truthy(end) then Stay
    else
      var distance := start.value - end.value;
      if distance > MinSwipeDistance then Advance
      else if distance < -MinSwipeDistance then Retreat
      else Stay
  }

  /** Swiping the same distance the other way does the opposite. */
  lemma SwipeSymmetric(a: real, b: real)
    ensures SwipeOf(Some(a), Some(b)) == Advance <==> SwipeOf(Some(b), Some(a)) == Retreat
    ensures SwipeOf(Some(a), Some(b)) == Stay <==> SwipeOf(Some(b), Some(a)) == Stay
  {
  }

  /** Drags of at most the threshold, and touches that never moved, change
      nothing. */
  lemma ShortOrMissingSwipeStays(start: Option<real>, end: Option<real>)
    requires end.None? || start.None? || (start.value - end.value <= MinSwipeDistance && end.value - start.value <= MinSwipeDistance)
    ensures SwipeOf(start, end) == Stay
  {
  }

  /** The carousel state of `AppShowcase`. `count` is the number of
      showcased apps (`webApps.length`). */
  class Carousel {
    const count: nat
    var activeIndex: int
    var direction: int
    var touchStart: Option<real>
    var touchEnd: Option<real>

    ghost predicate Valid()
      reads this
    {
      count > 0 && 0 <= activeIndex < count && direction in {-1, 0, 1}
    }

    constructor (count: nat)
      requires count > 0
      ensures Valid() && this.count == count
      ensures activeIndex == 0 && direction == 0 && touchStart == None && touchEnd == None
    {
      this.count := count;
      activeIndex := 0;
      direction := 0;
      touchStart := None;
      touchEnd := None;
    }

    method NextSlide()
      requires Valid()
      modifies this
      ensures Valid()
      ensures direction == 1 && activeIndex == Next(old(activeIndex), count)
      ensures touchStart == old(touchStart) && touchEnd == old(touchEnd)
    {
      direction := 1;
      activeIndex := (activeIndex + 1) % count;
    }

    method PrevSlide()
      requires Valid()
      modifies this
      ensures Valid()
      ensures direction == -1 && activeIndex == Prev(old(activeIndex), count)
      ensures touchStart == old(touchStart) && touchEnd == old(touchEnd)
    {
      direction := -1;
      activeIndex := (activeIndex - 1 + count) % count;
    }

    /** A dot button: its index is always one of the slides. */
    method GoToSlide(index: int)
      requires Valid() && 0 <= index < count
      modifies this
      ensures Valid()
      ensures direction == GoDirection(index, old(activeIndex)) && activeIndex == index
      ensures touchStart == old(touchStart) && touchEnd == old(touchEnd)
    {
      direction := if index > activeIndex then 1 else -1;
      activeIndex := index;
    }

    method OnTouchStart(clientX: real)
      requires Valid()
      modifies this
      ensures Valid()
      ensures touchEnd == None && touchStart == Some(clientX)
      ensures activeIndex == old(activeIndex) && direction == old(direction)
    {
      touchEnd := None;
      touchStart := Some(clientX);
    }

    method OnTouchMove(clientX: real)
      requires Valid()
      modifies this
      ensures Valid()
      ensures touchEnd == Some(clientX)
      ensures touchStart == old(touchStart) && activeIndex == old(activeIndex) && direction == old(direction)
    {
      touchEnd := Some(clientX);
    }

    /** Acts on the swipe the recorded coordinates describe; the
      coordinates themselves are kept. */
    method OnTouchEnd()
      requires Valid()
      modifies this
      ensures Valid()
      ensures touchStart == old(touchStart) && touchEnd == old(touchEnd)
      ensures SwipeOf(touchStart, touchEnd) == Advance ==>
                activeIndex == Next(old(activeIndex), count) && direction == 1
      ensures SwipeOf(touchStart, touchEnd) == Retreat ==>
                activeIndex == Prev(old(activeIndex), count) && direction == -1
      ensures SwipeOf(touchStart, touchEnd) == Stay ==>
                activeIndex == old(activeIndex) && direction == old(direction)
    {
      if !Truthy(touchStart) || !Truthy(touchEnd) {
        return;
      }
      var distance := touchStart.value - touchEnd.value;
      if distance > MinSwipeDistance {
        NextSlide();
      } else if distance < -MinSwipeDistance {
        PrevSlide();
      }
    }
  }

  /** A tap (touch start then touch end with no move in between) never
      changes the slide. */
  method Tap(c: Carousel, clientX: real)
    requires c.Valid()
    modifies c
    ensures c.Valid()
    ensures c.activeIndex == old(c.activeIndex) && c.direction == old(c.direction)
  {
    c.OnTouchStart(clientX);
    c.OnTouchEnd();
  }
}

/** The career timeline: the scroll progress of the section (0 to 1) picks
    the highlighted experience entry, and dragging along the timeline bar
    scrolls the page to the matching position. Numbers are exact reals. */
module AboutTimeline {

  /** `experiences.length`. */
  const ExperienceCount: nat := 9

  type Coordinates = (real, real)

  /** The marker position used when there is no active entry (Berlin). */
  const DefaultCoordinates: Coordinates := (52.52, 13.405)

  function Min(a: int, b: int): int { if a <= b then a else b }

  /** `Math.min(Math.floor(latest * n), n - 1)`. There is no lower clamp, so
      a negative progress gives a negative index. */
  function ActiveIndex(p: real, n: nat): (i: int)
    ensures i <= n - 1
    ensures 0.0 <= p ==> 0 <= i || n == 0
    ensures i < n - 1 ==> i as real <= p * n as real < i as real + 1.0
    ensures i == n - 1 ==> (n - 1) as real <= p * n as real
  {
    Min((p * n as real).Floor, n - 1)
  }

  /** For progress in [0,1] the index names an entry, and the end of the
      section names the last entry. */
  lemma ActiveIndexInRange(p: real, n: nat)
    requires 0.0 <= p <= 1.0 && n >= 1
    ensures 0 <= ActiveIndex(p, n) < n
    ensures p == 1.0 ==> ActiveIndex(p, n) == n - 1
  {
  }

  /** Entry `k` (other than the last) is active exactly on the band
      k/n <= p < (k+1)/n; the last entry from (n-1)/n on. */
  lemma ActiveIndexBand(p: real, n: nat, k: int)
    requires n >= 1 && 0 <= k < n
    ensures k < n - 1 ==> (ActiveIndex(p, n) == k <==> k as real <= p * n as real < k as real + 1.0)
    ensures k == n - 1 ==> (ActiveIndex(p, n) == k <==> (n - 1) as real <= p * n as real)
  {
  }

  /** With the site's nine entries, the top of the section highlights the
      first entry and the bottom the last. */
  lemma ExperienceEnds()
    ensures ActiveIndex(0.0, ExperienceCount) == 0
    ensures ActiveIndex(1.0, ExperienceCount) == ExperienceCount - 1
  {
    ActiveIndexInRange(1.0, ExperienceCount);
  }

  /** Scrolling further down never moves the highlight back up. */
  lemma ActiveIndexMonotone(p: real, q: real, n: nat)
    requires p <= q
    ensures ActiveIndex(p, n) <= ActiveIndex(q, n)
  {
    assert p * n as real <= q * n as real by {
      assert (q - p) * n as real >= 0.0;
    }
  }

  /** `Math.max(0, Math.min(1, relativeY / height))`: the pointer's place
      along the bar, clamped to [0,1]. */
  function ScrubProgress(relativeY: real, height: real): (p: real)
    requires height > 0.0
    ensures 0.0 <= p <= 1.0
    ensures relativeY <= 0.0 ==> p == 0.0
    ensures relativeY >= height ==> p == 1.0
    ensures 0.0 <= relativeY <= height ==> p * height == relativeY
  {
    var ratio := relativeY / height;
    var upper := if 1.0 <= ratio then 1.0 else ratio;
    if 0.0 >= upper then 0.0 else upper
  }

  /** `sectionTop + progress * scrollDistance`, where the scroll distance is
      the section's height less the window's. */
  function ScrubTarget(sectionTop: real, sectionHeight: real, windowHeight: real, progress: real): (t: real)
    requires 0.0 <= progress <= 1.0
    ensures progress == 0.0 ==> t == sectionTop
    ensures progress == 1.0 ==> t == sectionTop + (sectionHeight - windowHeight)
    ensures t - sectionTop == progress * (sectionHeight - windowHeight)
    ensures sectionHeight >= windowHeight ==>
              sectionTop <= t <= sectionTop + (sectionHeight - windowHeight)
  {
    var scrollDistance := sectionHeight - windowHeight;
    assert scrollDistance >= 0.0 ==> 0.0 <= progress * scrollDistance <= scrollDistance by {
      if scrollDistance >= 0.0 {
        assert (1.0 - progress) * scrollDistance >= 0.0;
      }
    }
    sectionTop + progress * scrollDistance
  }

  /** Dragging further down the bar never scrolls the page back up: the
      requested scroll offset never gets smaller. */
  lemma ScrubMonotone(y1: real, y2: real, height: real, sectionTop: real, sectionHeight: real, windowHeight: real)
    requires height > 0.0 && y1 <= y2 && sectionHeight >= windowHeight
    ensures ScrubTarget(sectionTop, sectionHeight, windowHeight, ScrubProgress(y1, height))
         <= ScrubTarget(sectionTop, sectionHeight, windowHeight, ScrubProgress(y2, height))
  {
    ScrubProgressMonotone(y1, y2, height);
    ScrubTargetMonotone(ScrubProgress(y1, height), ScrubProgress(y2, height), sectionTop, sectionHeight, windowHeight);
  }

  lemma ScrubProgressMonotone(y1: real, y2: real, height: real)
    requires height > 0.0 && y1 <= y2
    ensures ScrubProgress(y1, height) <= ScrubProgress(y2, height)
  {
    assert y1 / height <= y2 / height by {
      assert y2 / height - y1 / height == (y2 - y1) / height;
      assert (y2 - y1) / height >= 0.0;
    }
  }

  /** When the section is at least as tall as the window, a larger progress
      never gives a smaller scroll target. */
  lemma ScrubTargetMonotone(p1: real, p2: real, sectionTop: real, sectionHeight: real, windowHeight: real)
    requires 0.0 <= p1 <= p2 <= 1.0 && sectionHeight >= windowHeight
    ensures ScrubTarget(sectionTop, sectionHeight, windowHeight, p1)
         <= ScrubTarget(sectionTop, sectionHeight, windowHeight, p2)
  {
    var distance := sectionHeight - windowHeight;
    assert distance >= 0.0 && p2 - p1 >= 0.0;
    assert (p2 - p1) * distance >= 0.0;
    assert ScrubTarget(sectionTop, sectionHeight, windowHeight, p1) == sectionTop + p1 * distance;
    assert ScrubTarget(sectionTop, sectionHeight, windowHeight, p2) == sectionTop + p2 * distance;
  }

  /** `isActive` of each experience card. */
  function CardStates(n: nat, activeIndex: int): (cards: seq<bool>)
    ensures |cards| == n
    ensures forall i :: 0 <= i < n ==> (cards[i] <==> i == activeIndex)
  {
    seq(n, i requires 0 <= i < n => i == activeIndex)
  }

  function CountActive(cards: seq<bool>): nat
  {
    if cards == [] then 0 else CountActive(cards[..|cards| - 1]) + (if cards[|cards| - 1] then 1 else 0)
  }

  /** Exactly one card is shown when the index is in range, none otherwise. */
  lemma {:induction false} ExactlyOneActiveCard(n: nat, activeIndex: int)
    ensures CountActive(CardStates(n, activeIndex)) == if 0 <= activeIndex < n then 1 else 0
  {
    if n > 0 {
      ExactlyOneActiveCard(n - 1, activeIndex);
      assert CardStates(n, activeIndex)[..n - 1] == CardStates(n - 1, activeIndex);
    }
  }

  /** `experiences[activeIndex]?.coordinates || [52.52, 13.405]`. */
  function MarkerCoordinates(coords: seq<Coordinates>, activeIndex: int): (c: Coordinates)
    ensures 0 <= activeIndex < |coords| ==> c == coords[activeIndex]
    ensures !(0 <= activeIndex < |coords|) ==> c == DefaultCoordinates
  {
    if 0 <= activeIndex < |coords| then coords[activeIndex] else DefaultCoordinates
  }

  /** While the section is being scrolled through, the marker is always on
      one of the entries; the fallback is only reached with no entries. */
  lemma MarkerOnAnEntry(coords: seq<Coordinates>, p: real)
    requires 0.0 <= p <= 1.0
    ensures |coords| >= 1 ==> MarkerCoordinates(coords, ActiveIndex(p, |coords|)) in coords
    ensures |coords| == 0 ==> MarkerCoordinates(coords, ActiveIndex(p, |coords|)) == DefaultCoordinates
  {
    if |coords| >= 1 {
      ActiveIndexInRange(p, |coords|);
    }
  }

  /** The timeline state: the highlighted entry, and the scroll position last
      requested of the page's scroll container. */
  class Timeline {
    const entries: nat
    var activeIndex: int
    var scrollTop: real

    constructor (entries: nat, scrollTop: real)
      ensures this.entries == entries && activeIndex == 0 && this.scrollTop == scrollTop
    {
      this.entries := entries;
      activeIndex := 0;
      this.scrollTop := scrollTop;
    }

    /** The scroll-progress listener. */
    method OnScrollProgress(latest: real)
      modifies this
      ensures activeIndex == ActiveIndex(latest, entries) && scrollTop == old(scrollTop)
    {
      activeIndex := Min((latest * entries as real).Floor, entries - 1);
    }

    /** `handleScrub`: does nothing until the bar, the container and the
        section are mounted; otherwise scrolls to the position matching the
        pointer. */
    method HandleScrub(mounted: bool, clientY: real, rectTop: real, rectHeight: real,
                       sectionTop: real, sectionHeight: real, windowHeight: real)
      requires rectHeight > 0.0
      modifies this
      ensures activeIndex == old(activeIndex)
      ensures !mounted ==> scrollTop == old(scrollTop)
      ensures mounted ==>
                scrollTop == ScrubTarget(sectionTop, sectionHeight, windowHeight,
                                         ScrubProgress(clientY - rectTop, rectHeight))
    {
      if !mounted {
        return;
      }
      var relativeY := clientY - rectTop;
      var progress := ScrubProgress(relativeY, rectHeight);
      var scrollDistance := sectionHeight - windowHeight;
      scrollTop := sectionTop + progress * scrollDistance;
    }
  }
}

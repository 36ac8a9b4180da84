/** The intro countdown: a counter runs down from 5 once a second; at 0 the
    intro starts exiting and schedules the completion callback. A skip
    button starts the exit at once. */
module IntroCountdown {
  import Numerals

  /** The initial count. */
  const StartCount: nat := 5

  /** The text in the countdown circle: the count while it is positive,
      "GO" at zero. */
  function Label(count: nat): (s: string)
    ensures s == "GO" <==> count == 0
    ensures count > 0 ==> Numerals.AllDigits(s) && Numerals.ValueOf(s) == count
  {
    if count > 0 then
      Numerals.NatToStringValue(count);
      Numerals.NatToString(count)
    else "GO"
  }

  /** The state of `IntroSequence`: `count`, `isExiting`, and how many times
      the completion callback has been scheduled (`setTimeout(onComplete,
      800)`; the delay itself is not modelled). */
  class Countdown {
    var count: int
    var isExiting: bool
    var completionsScheduled: nat

    /** The count stays within 0..5, and the intro is exiting exactly when a
        completion has been scheduled. */
    ghost predicate Valid()
      reads this
    {
      0 <= count <= StartCount && (isExiting <==> completionsScheduled > 0)
    }

    constructor ()
      ensures Valid()
      ensures count == StartCount && !isExiting && completionsScheduled == 0
    {
      count := StartCount;
      isExiting := false;
      completionsScheduled := 0;
    }

    /** `handleComplete`, shared by the countdown and the skip button:
        start exiting and schedule the callback, whatever the count. A
        second press of skip schedules the callback again. */
    method HandleComplete()
      requires Valid()
      modifies this
      ensures Valid()
      ensures isExiting && count == old(count)
      ensures completionsScheduled == old(completionsScheduled) + 1
    {
      isExiting := true;
      completionsScheduled := completionsScheduled + 1;
    }

    /** One round of the countdown effect: while counting and not exiting,
        the one-second timer takes one off the count; at zero the effect
        completes; once exiting nothing happens. */
    method Step()
      requires Valid()
      modifies this
      ensures Valid()
      ensures old(count) > 0 && !old(isExiting) ==>
                count == old(count) - 1 && !isExiting && completionsScheduled == 0
      ensures old(count) == 0 && !old(isExiting) ==>
                count == 0 && isExiting && completionsScheduled == 1
      ensures old(isExiting) ==>
                count == old(count) && isExiting && completionsScheduled == old(completionsScheduled)
    {
      if count > 0 && !isExiting {
        count := count - 1;
      } else if count == 0 && !isExiting {
        HandleComplete();
      }
    }

    /** The skip button. */
    method Skip()
      requires Valid()
      modifies this
      ensures Valid()
      ensures isExiting && count == old(count)
      ensures completionsScheduled == old(completionsScheduled) + 1
    {
      HandleComplete();
    }
  }

  /** Left alone, the intro shows 5, 4, 3, 2, 1 and "GO", and the round
      after "GO" starts the exit with the callback scheduled once. */
  method RunWithoutSkip() returns (labels: seq<string>, exiting: bool, completions: nat)
    ensures labels == ["5", "4", "3", "2", "1", "GO"]
    ensures exiting && completions == 1
  {
    var c := new Countdown();
    labels := [Label(c.count)];
    c.Step();
    labels := labels + [Label(c.count)];
    c.Step();
    labels := labels + [Label(c.count)];
    c.Step();
    labels := labels + [Label(c.count)];
    c.Step();
    labels := labels + [Label(c.count)];
    c.Step();
    labels := labels + [Label(c.count)];
    c.Step();
    exiting, completions := c.isExiting, c.completionsScheduled;
  }
}

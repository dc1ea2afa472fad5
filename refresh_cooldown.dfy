/** The "Refresh Prices" button of the dashboard (frontend/src/App.tsx):
    a click posts both refresh requests and disables the button for a
    countdown of ten one-second ticks. The click together with the effect
    that sets the countdown to ten is one step; interval ticks are discrete
    events. */
module RefreshCooldown {

  const CooldownTicks := 10

  /** The button's state: `isButtonDisabled` and `countdown`. */
  datatype Cooldown = Cooldown(disabled: bool, countdown: int)

  /** `useState(false)` and `useState(0)`. */
  const Initial := Cooldown(false, 0)

  /** The button is disabled exactly while the countdown runs from 10 down
      to 1, and an enabled button shows a countdown of 0. */
  ghost predicate Inv(s: Cooldown)
  {
    0 <= s.countdown <= CooldownTicks && (s.disabled <==> 1 <= s.countdown)
  }

  /** A click on the button. A disabled button receives no click; an
      enabled one becomes disabled and the effect starts the countdown at
      10. */
  function Click(s: Cooldown): (r: Cooldown)
    ensures s.disabled ==> r == s
    ensures !s.disabled ==> r.disabled && r.countdown == CooldownTicks
  {
    if s.disabled then s else Cooldown(true, CooldownTicks)
  }

  /** One tick of the interval. The interval exists only while the button is
      disabled, so an enabled button sees no tick; the tick that finds 1
      sets 0 and enables the button (and clears the interval); any other
      subtracts 1. */
  function Tick(s: Cooldown): (r: Cooldown)
    ensures !s.disabled ==> r == s
    ensures s.disabled && s.countdown == 1 ==> r == Initial
    ensures s.disabled && s.countdown != 1 ==> r.disabled && r.countdown == s.countdown - 1
  {
    if !s.disabled then s
    else if s.countdown == 1 then Cooldown(false, 0)
    else Cooldown(true, s.countdown - 1)
  }

  datatype Event = ClickEvent | TickEvent

  function Step(s: Cooldown, e: Event): Cooldown
  {
    match e
    case ClickEvent => Click(s)
    case TickEvent => Tick(s)
  }

  /** The state after a sequence of events. */
  function Run(s: Cooldown, events: seq<Event>): Cooldown
    decreases |events|
  {
    if |events| == 0 then s else Run(Step(s, events[0]), events[1..])
  }

  /** `k` ticks in a row. */
  function Ticks(k: nat): (r: seq<Event>)
    ensures |r| == k && forall i :: 0 <= i < k ==> r[i] == TickEvent
  {
    if k == 0 then [] else [TickEvent] + Ticks(k - 1)
  }

  /** How many clicks along a run post the two refresh requests: those
      that reach an enabled button. */
  function Dispatches(s: Cooldown, events: seq<Event>): nat
    decreases |events|
  {
    if |events| == 0 then 0
    else (if events[0] == ClickEvent && !s.disabled then 1 else 0) + Dispatches(Step(s, events[0]), events[1..])
  }

  function TickCount(events: seq<Event>): nat
  {
    if |events| == 0 then 0
    else (if events[0] == TickEvent then 1 else 0) + TickCount(events[1..])
  }

  lemma StepPreservesInv(s: Cooldown, e: Event)
    requires Inv(s)
    ensures Inv(Step(s, e))
  {
  }

  /** Every run from a state that keeps the invariant keeps it. */
  lemma {:induction false} RunPreservesInv(s: Cooldown, events: seq<Event>)
    requires Inv(s)
    ensures Inv(Run(s, events))
    decreases |events|
  {
    if |events| > 0 {
      StepPreservesInv(s, events[0]);
      RunPreservesInv(Step(s, events[0]), events[1..]);
    }
  }

  /** From a countdown at `n`, `k` ticks leave it at `n - k` while `k < n`,
      and from the `n`-th tick on the button is enabled again at 0. */
  lemma {:induction false} CountdownAfterTicks(n: int, k: nat)
    requires 1 <= n <= CooldownTicks
    ensures Run(Cooldown(true, n), Ticks(k)) == if k < n then Cooldown(true, n - k) else Initial
    decreases k
  {
    if k > 0 {
      assert Ticks(k)[1..] == Ticks(k - 1);
      if n == 1 {
        IdleIgnoresTicks(k - 1);
      } else {
        CountdownAfterTicks(n - 1, k - 1);
      }
    }
  }

  /** An enabled button stays as it is however many ticks arrive. */
  lemma {:induction false} IdleIgnoresTicks(k: nat)
    ensures Run(Initial, Ticks(k)) == Initial
    decreases k
  {
    if k > 0 {
      assert Ticks(k)[1..] == Ticks(k - 1);
      IdleIgnoresTicks(k - 1);
    }
  }

  /** After a click on the enabled button, the button stays disabled for
      nine ticks and is enabled again, at 0, by exactly the tenth. */
  lemma ClickThenTicks(k: nat)
    ensures Run(Initial, [ClickEvent] + Ticks(k)) ==
      if k < CooldownTicks then Cooldown(true, CooldownTicks - k) else Initial
  {
    assert ([ClickEvent] + Ticks(k))[1..] == Ticks(k);
    CountdownAfterTicks(CooldownTicks, k);
  }

  /** Running two sequences of events one after the other is running their
      concatenation, and the refreshes posted add up. */
  lemma {:induction false} RunAppend(s: Cooldown, a: seq<Event>, b: seq<Event>)
    ensures Run(s, a + b) == Run(Run(s, a), b)
    ensures Dispatches(s, a + b) == Dispatches(s, a) + Dispatches(Run(s, a), b)
    decreases |a|
  {
    if |a| == 0 {
      assert a + b == b;
    } else {
      assert (a + b)[0] == a[0] && (a + b)[1..] == a[1..] + b;
      RunAppend(Step(s, a[0]), a[1..], b);
    }
  }

  /** Ticks alone never post a refresh. */
  lemma {:induction false} TicksPostNothing(s: Cooldown, k: nat)
    ensures Dispatches(s, Ticks(k)) == 0
    decreases k
  {
    if k > 0 {
      assert Ticks(k)[1..] == Ticks(k - 1);
      TicksPostNothing(Tick(s), k - 1);
    }
  }

  /** A second click `j` ticks into the countdown changes nothing: the
      button is still disabled after nine ticks in all, enabled again after
      the tenth tick from the first click, and one refresh was posted. */
  lemma ClickDuringCountdownIgnored(j: nat)
    requires 0 < j < CooldownTicks
    ensures Run(Initial, [ClickEvent] + Ticks(j) + [ClickEvent] + Ticks(CooldownTicks - 1 - j)).disabled
    ensures Run(Initial, [ClickEvent] + Ticks(j) + [ClickEvent] + Ticks(CooldownTicks - j)) == Initial
    ensures Dispatches(Initial, [ClickEvent] + Ticks(j) + [ClickEvent] + Ticks(CooldownTicks - j)) == 1
  {
    var first := [ClickEvent] + Ticks(j);
    ClickThenTicks(j);
    RunAppend(Initial, [ClickEvent], Ticks(j));
    TicksPostNothing(Click(Initial), j);
    assert Dispatches(Initial, [ClickEvent]) == 1;
    var mid := Cooldown(true, CooldownTicks - j);
    assert Run(mid, [ClickEvent]) == mid;
    assert Dispatches(mid, [ClickEvent]) == 0;
    RunAppend(Initial, first, [ClickEvent]);
    forall k: nat | k == CooldownTicks - 1 - j || k == CooldownTicks - j
      ensures Run(Initial, first + [ClickEvent] + Ticks(k)) == Run(mid, Ticks(k))
      ensures Dispatches(Initial, first + [ClickEvent] + Ticks(k)) == 1
    {
      RunAppend(Initial, first + [ClickEvent], Ticks(k));
      TicksPostNothing(mid, k);
    }
    CountdownAfterTicks(CooldownTicks - j, CooldownTicks - 1 - j);
    CountdownAfterTicks(CooldownTicks - j, CooldownTicks - j);
  }

  /** Rate limit: ten times the number of refreshes posted, plus the ticks
      still to wait at the start, never exceeds the ticks that arrived plus
      the ticks still to wait at the end. */
  lemma {:induction false} DispatchesBoundedByTicks(s: Cooldown, events: seq<Event>)
    requires Inv(s)
    ensures CooldownTicks * Dispatches(s, events) + s.countdown <= TickCount(events) + Run(s, events).countdown
    decreases |events|
  {
    if |events| > 0 {
      StepPreservesInv(s, events[0]);
      DispatchesBoundedByTicks(Step(s, events[0]), events[1..]);
    }
  }

  /** Between a refresh that is posted and the next one, at least ten
      ticks arrive: whatever follows a click on the enabled button posts
      nothing more until ten of its events have been ticks. */
  lemma SecondRefreshNeedsTenTicks(s: Cooldown, a: seq<Event>, b: seq<Event>)
    requires !Run(s, a).disabled
    requires Dispatches(Run(s, a + [ClickEvent]), b) >= 1
    ensures TickCount(b) >= CooldownTicks
  {
    RunAppend(s, a, [ClickEvent]);
    var started := Run(s, a + [ClickEvent]);
    assert started == Cooldown(true, CooldownTicks);
    DispatchesBoundedByTicks(started, b);
    RunPreservesInv(started, b);
  }

  /** The button's React state, updated in place by the click handler and
      by the interval callback. */
  class RefreshButton {
    var isButtonDisabled: bool
    var countdown: int

    function State(): Cooldown
      reads this
    {
      Cooldown(isButtonDisabled, countdown)
    }

    constructor ()
      ensures State() == Initial
    {
      isButtonDisabled := false;
      countdown := 0;
    }

    /** The click handler, with the effect it triggers: post both refresh
        requests (reported by `posted`), disable the button and start the
        countdown at 10. */
    method OnClick() returns (posted: bool)
      modifies this
      ensures State() == Click(old(State()))
      ensures posted <==> !old(isButtonDisabled)
    {
      if isButtonDisabled {
        return false;
      }
      posted := true;
      isButtonDisabled := true;
      countdown := CooldownTicks;
    }

    /** The interval callback; `cleared` reports that it cleared the
        interval. */
    method OnTick() returns (cleared: bool)
      modifies this
      ensures State() == Tick(old(State()))
      ensures cleared <==> old(isButtonDisabled) && old(countdown) == 1
    {
      if !isButtonDisabled {
        return false;
      }
      if countdown == 1 {
        cleared := true;
        isButtonDisabled := false;
        countdown := 0;
      } else {
        cleared := false;
        countdown := countdown - 1;
      }
    }
  }
}

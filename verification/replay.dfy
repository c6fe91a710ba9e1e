/** Replay navigation: a bounded window over a timeline of any length, with one page of look-ahead. */
module Replay {
  import opened Events
  import opened Timelines
  import opened Wrappers

  const TIMELINE_PAGE_SIZE := 256
  const TICK_STEPS := 64
  const U128_LIMIT := 0x1_0000_0000_0000_0000_0000_0000_0000_0000

  /** Playback speeds as fractions. */
  const SPEEDS: seq<(nat, nat)> := [(1, 4), (1, 2), (1, 1), (2, 1), (4, 1)]

  /** Where the page that holds the event before a window begins. */
  function PreviousPageCursor(target: nat): nat {
    if target < TIMELINE_PAGE_SIZE then 0 else target - TIMELINE_PAGE_SIZE
  }

  class App {
    /** The stored timeline, which does not change while it is replayed. */
    const timeline: seq<Event>
    var events: seq<Event>
    var selected: nat
    var hasMore: bool
    var pending: Option<Page>
    var playing: bool
    var speedIndex: nat
    var lastTick: nat
    var target: nat
    /** How many events precede the window. */
    ghost var start: nat

    /** The window is a slice of the timeline, and a fetched page is the slice right behind it. */
    ghost predicate Valid()
      reads this`events, this`selected, this`hasMore, this`pending, this`start, this`speedIndex
    {
      && Numbered(timeline) && OffsetsRise(timeline) && |timeline| < CURSOR_LIMIT
      && speedIndex < |SPEEDS|
      && start + |events| <= |timeline| && events == timeline[start..start + |events|]
      && (hasMore <==> start + |events| < |timeline|)
      && (if timeline == [] then start == 0 && selected == 0 else selected < |events|)
      && (pending.Some? ==> hasMore && pending.value == PageOf(timeline, start + |events|, TIMELINE_PAGE_SIZE))
    }

    /** The index of the selected event in the whole timeline. */
    ghost function Position(): nat
      reads this`start, this`selected
    {
      start + selected
    }

    constructor (timeline: seq<Event>)
      requires Numbered(timeline) && OffsetsRise(timeline) && |timeline| < CURSOR_LIMIT
      ensures Valid() && this.timeline == timeline && Position() == 0 && !playing
    {
      this.timeline := timeline;
      selected, pending, playing, speedIndex, lastTick, target, start := 0, None, false, 2, 0, 0, 0;
      events, hasMore := [], false;
      new;
      var page := LoadTimeline(timeline, None, TIMELINE_PAGE_SIZE);
      events, hasMore := page.value.events, page.value.hasMore;
    }

    function SelectedEvent(): Option<Event>
      reads this
    {
      if selected < |events| then Some(events[selected]) else None
    }

    /** What is shown as selected is the event at the position. */
    lemma SelectionShown()
      requires Valid()
      ensures if timeline == [] then Position() == 0 && SelectedEvent().None?
              else Position() < |timeline| && SelectedEvent() == Some(timeline[Position()])
                   && timeline[Position()].sequence == Position() + 1
    {
    }

    lemma SpeedKnown()
      requires Valid()
      ensures speedIndex < |SPEEDS|
    {
    }

    /** Looks at the next event without moving; a page fetched for that is kept for the next step. */
    method PeekNextOffset() returns (offset: Option<nat>)
      requires Valid()
      modifies this`pending
      ensures Valid() && Position() == old(Position())
      ensures offset == if Position() + 1 < |timeline| then Some(timeline[Position() + 1].offset) else None
    {
      if selected + 1 < |events| {
        return Some(events[selected + 1].offset);
      }
      if !hasMore || events == [] {
        return None;
      }
      if pending.None? {
        var page := LoadTimeline(timeline, Some(events[|events| - 1].sequence), TIMELINE_PAGE_SIZE);
        pending := Some(page.value);
      }
      return Some(pending.value.events[0].offset);
    }

    /** Moves forward by exactly one event, across pages too, unless there is none. */
    method StepNextRaw() returns (moved: bool)
      requires Valid()
      modifies this`events, this`selected, this`hasMore, this`pending, this`start
      ensures Valid()
      ensures moved <==> old(Position()) + 1 < |timeline|
      ensures Position() == old(Position()) + if moved then 1 else 0
    {
      if selected + 1 < |events| {
        selected := selected + 1;
        return true;
      }
      if !hasMore || events == [] {
        return false;
      }
      var last := events[|events| - 1].sequence;
      var page;
      if pending.Some? {
        page := pending.value;
        pending := None;
      } else {
        var loaded := LoadTimeline(timeline, Some(last), TIMELINE_PAGE_SIZE);
        page := loaded.value;
      }
      ReplacePage(page, 0, start + |events|);
      return true;
    }

    /** Moves back by exactly one event, across pages too, unless the first is selected. */
    method StepPreviousRaw() returns (moved: bool)
      requires Valid()
      modifies this`events, this`selected, this`hasMore, this`pending, this`start
      ensures Valid()
      ensures moved <==> old(Position()) > 0
      ensures Position() == old(Position()) - if moved then 1 else 0
    {
      if selected > 0 {
        selected := selected - 1;
        return true;
      }
      if events == [] {
        return false;
      }
      var first := events[0].sequence;
      if first == 1 {
        return false;
      }
      pending := None;
      var target := first - 1;
      var after := PreviousPageCursor(target);
      var page := LoadTimeline(timeline, if after == 0 then None else Some(after), TIMELINE_PAGE_SIZE);
      PageNumbers(timeline, after, TIMELINE_PAGE_SIZE);
      var index := PositionIn(page.value.events, target, if page.value.events == [] then 0
        else |page.value.events| - 1, after);
      ReplacePage(page.value, index, after);
      return events != [];
    }

    /** Lands on the event with the given sequence, roughly in the middle of its page. */
    method JumpTo(target: nat)
      requires Valid() && 1 <= target <= |timeline|
      modifies this`events, this`selected, this`hasMore, this`pending, this`start
      ensures Valid() && Position() == target - 1
    {
      pending := None;
      var half := TIMELINE_PAGE_SIZE / 2;
      var after := if target < half + 1 then 0 else target - (half + 1);
      var page := LoadTimeline(timeline, if after == 0 then None else Some(after), TIMELINE_PAGE_SIZE);
      PageNumbers(timeline, after, TIMELINE_PAGE_SIZE);
      var index := PositionIn(page.value.events, target, 0, after);
      ReplacePage(page.value, index, after);
    }

    /** The index of a sequence number on a page, or a fallback. */
    static method PositionIn(page: seq<Event>, target: nat, fallback: nat, ghost after: nat) returns (index: nat)
      requires forall i :: 0 <= i < |page| ==> page[i].sequence == after + i + 1
      ensures index == if after < target <= after + |page| then target - after - 1 else fallback
    {
      for i := 0 to |page|
        invariant target <= after || target > after + i
      {
        if page[i].sequence == target {
          return i;
        }
      }
      return fallback;
    }

    method ReplacePage(page: Page, index: nat, ghost from: nat)
      requires Numbered(timeline) && OffsetsRise(timeline) && |timeline| < CURSOR_LIMIT
      requires speedIndex < |SPEEDS| && pending.None?
      requires from < |timeline| && page == PageOf(timeline, from, TIMELINE_PAGE_SIZE) && index < |page.events|
      modifies this`events, this`selected, this`hasMore, this`start
      ensures Valid() && start == from && selected == index
    {
      events := page.events;
      hasMore := page.hasMore;
      selected := index;
      start := from;
    }

    /**
     * One playback tick: time passed since the last one, scaled by the speed, moves the target on, and the
     * selection follows it by at most `TICK_STEPS` events. It never passes the target, and stops short
     * only at the last event due or at the end, where playback stops.
     */
    method Tick(now: nat)
      requires Valid()
      modifies this
      ensures Valid() && lastTick == now && speedIndex == old(speedIndex)
      ensures !old(playing) ==> Position() == old(Position()) && target == old(target) && !playing
      ensures old(playing) ==> target == Due(old(target), old(lastTick), now, speedIndex)
      ensures old(playing) ==> old(Position()) <= Position() <= old(Position()) + TICK_STEPS
      ensures forall i :: old(Position()) < i <= Position() ==> i < |timeline| && timeline[i].offset <= target
      ensures old(playing) ==>
        || Position() == old(Position()) + TICK_STEPS
        || (Position() + 1 < |timeline| && timeline[Position() + 1].offset > target && playing)
        || (Position() + 1 >= |timeline| && !playing)
    {
      hide App.Valid;
      SpeedKnown();
      if !playing {
        lastTick := now;
        return;
      }
      target := Due(target, lastTick, now, speedIndex);
      lastTick := now;
      ghost var from := Position();
      for steps := 0 to TICK_STEPS
        invariant Valid() && playing && lastTick == now && speedIndex == old(speedIndex)
        invariant target == Due(old(target), old(lastTick), now, speedIndex)
        invariant Position() == from + steps
        invariant forall i :: from < i <= Position() ==> i < |timeline| && timeline[i].offset <= target
      {
        var nextOffset := PeekNextOffset();
        if nextOffset.None? {
          playing := false;
          break;
        }
        if nextOffset.value > target {
          break;
        }
        var moved := StepNextRaw();
        assert moved;
      }
    }

    /** A single step by hand stops playback and takes the target along. */
    method StepEvent(forward: bool) returns (moved: bool)
      requires Valid()
      modifies this
      ensures Valid() && !playing
      ensures moved <==> if forward then old(Position()) + 1 < |timeline| else old(Position()) > 0
      ensures Position() == if !moved then old(Position()) else if forward then old(Position()) + 1
          else old(Position()) - 1
      ensures moved ==> target == timeline[Position()].offset
    {
      hide App.Valid;
      SelectionShown();
      playing := false;
      if forward {
        moved := StepNextRaw();
      } else {
        moved := StepPreviousRaw();
      }
      if moved {
        SelectionShown();
        target := SelectedEvent().value.offset;
      }
    }

    /** The next checkpoint in the given direction, if there is one; otherwise nothing moves. */
    method StepCheckpoint(forward: bool, checkpoints: seq<nat>) returns (moved: bool)
      requires Valid()
      requires forall i, j :: 0 <= i < j < |checkpoints| ==> checkpoints[i] < checkpoints[j]
      requires forall i :: 0 <= i < |checkpoints| ==> 1 <= checkpoints[i] <= |timeline|
      modifies this
      ensures Valid() && !playing
      ensures !moved ==> Position() == old(Position())
      ensures moved ==> Position() + 1 in checkpoints
      ensures forward && timeline != [] ==> forall i :: 0 <= i < |checkpoints| ==>
        checkpoints[i] <= old(Position()) + 1
          || (moved && old(Position()) < Position() && Position() + 1 <= checkpoints[i])
      ensures !forward && timeline != [] ==> forall i :: 0 <= i < |checkpoints| ==>
        checkpoints[i] >= old(Position()) + 1
          || (moved && Position() < old(Position()) && checkpoints[i] <= Position() + 1)
    {
      hide App.Valid;
      playing := false;
      SelectionShown();
      var shown := SelectedEvent();
      var current := if shown.None? then 0 else shown.value.sequence;
      var i := 0;
      if forward {
        while i < |checkpoints| && checkpoints[i] <= current
          invariant 0 <= i <= |checkpoints| && forall k :: 0 <= k < i ==> checkpoints[k] <= current
        {
          i := i + 1;
        }
        if i == |checkpoints| {
          return false;
        }
      } else {
        i := |checkpoints|;
        while i > 0 && checkpoints[i - 1] >= current
          invariant 0 <= i <= |checkpoints| && forall k :: i <= k < |checkpoints| ==> checkpoints[k] >= current
        {
          i := i - 1;
        }
        if i == 0 {
          return false;
        }
        i := i - 1;
      }
      JumpTo(checkpoints[i]);
      SelectionShown();
      target := SelectedEvent().value.offset;
      return true;
    }
  }

  /** The playback target after a tick; a clock that runs backwards adds nothing. */
  function Due(target: nat, lastTick: nat, now: nat, speedIndex: nat): nat
    requires speedIndex < |SPEEDS|
  {
    var elapsed := if now > lastTick then now - lastTick else 0;
    Saturated(target + Saturated(elapsed * SPEEDS[speedIndex].0, U128_LIMIT) / SPEEDS[speedIndex].1, U128_LIMIT)
  }

  const QUARTER_SPEED := 0
  const HALF_SPEED := 1
  const NORMAL_SPEED := 2
  const DOUBLE_SPEED := 3
  const QUADRUPLE_SPEED := 4

  /**
   * At normal speed the target moves by exactly the time that has passed, at twice and four times the speed
   * by twice and four times as much, and at a half and a quarter of it by that part, rounded down.
   */
  lemma DueAtSpeed(target: nat, lastTick: nat, passed: nat)
    requires target + 4 * passed < U128_LIMIT
    ensures Due(target, lastTick, lastTick + passed, NORMAL_SPEED) == target + passed
    ensures Due(target, lastTick, lastTick + passed, DOUBLE_SPEED) == target + 2 * passed
    ensures Due(target, lastTick, lastTick + passed, QUADRUPLE_SPEED) == target + 4 * passed
    ensures var moved := Due(target, lastTick, lastTick + passed, HALF_SPEED) - target;
      2 * moved <= passed < 2 * moved + 2
    ensures var moved := Due(target, lastTick, lastTick + passed, QUARTER_SPEED) - target;
      4 * moved <= passed < 4 * moved + 4
  {
    assert SPEEDS[QUARTER_SPEED] == (1, 4) && SPEEDS[HALF_SPEED] == (1, 2) && SPEEDS[NORMAL_SPEED] == (1, 1);
    assert SPEEDS[DOUBLE_SPEED] == (2, 1) && SPEEDS[QUADRUPLE_SPEED] == (4, 1);
  }

  /** The target never moves back, not even when the clock does, and it stops at the end of its type. */
  lemma DueAdvances(target: nat, lastTick: nat, now: nat, speedIndex: nat)
    requires speedIndex < |SPEEDS| && target < U128_LIMIT
    ensures target <= Due(target, lastTick, now, speedIndex) < U128_LIMIT
    ensures now <= lastTick ==> Due(target, lastTick, now, speedIndex) == target
  {
  }
}

/** Bounded pages over a stored timeline, and the loops that walk them. */
module Timelines {
  import opened Events
  import opened Wrappers

  const MAX_TIMELINE_PAGE := 10_000

  datatype Page = Page(events: seq<Event>, hasMore: bool)

  /** The rows of `WHERE sequence > cursor ORDER BY sequence`. */
  function RowsAfter(events: seq<Event>, cursor: nat): seq<Event> {
    if events == [] then [] else
      (if events[0].sequence > cursor then [events[0]] else []) + RowsAfter(events[1..], cursor)
  }

  /** The next `limit` events after a cursor, and whether any remain behind them. */
  function PageOf(events: seq<Event>, cursor: nat, limit: nat): (page: Page)
    ensures cursor < |events| && 0 < limit ==> page.events != []
    ensures |page.events| <= limit
  {
    var start := if cursor < |events| then cursor else |events|;
    var end := if start + limit < |events| then start + limit else |events|;
    Page(events[start..end], end < |events|)
  }

  /** A page of a numbered timeline continues the numbers where its cursor stands. */
  lemma PageNumbers(events: seq<Event>, cursor: nat, limit: nat)
    requires Numbered(events) && cursor <= |events|
    ensures forall i :: 0 <= i < |PageOf(events, cursor, limit).events| ==>
      PageOf(events, cursor, limit).events[i].sequence == cursor + i + 1
  {
  }

  lemma {:induction false} RowsAbove(events: seq<Event>, cursor: nat)
    requires forall i :: 0 <= i < |events| ==> events[i].sequence > cursor
    ensures RowsAfter(events, cursor) == events
  {
    if events != [] { RowsAbove(events[1..], cursor); }
  }

  /** On a numbered timeline a cursor is a position. */
  lemma {:induction false} RowsAreSuffix(events: seq<Event>, first: nat, cursor: nat)
    requires forall i :: 0 <= i < |events| ==> events[i].sequence == first + i + 1
    requires first <= cursor
    ensures RowsAfter(events, cursor) == if cursor - first < |events| then events[cursor - first..] else []
  {
    if events != [] && first < cursor {
      RowsAreSuffix(events[1..], first + 1, cursor);
    } else {
      RowsAbove(events, cursor);
    }
  }

  lemma {:induction false} FetchedIsPage(
    events: seq<Event>, cursor: nat, start: nat, limit: nat, kept: seq<Event>, hasMore: bool)
    requires start == if cursor < |events| then cursor else |events|
    requires hasMore <==> |events| - start > limit
    requires kept == if hasMore then events[start..][..limit + 1][..limit] else events[start..]
    ensures Page(kept, hasMore) == PageOf(events, cursor, limit)
  {
    if hasMore {
      assert events[start..][..limit + 1][..limit] == events[start..start + limit];
    }
  }

  datatype PageError = InvalidPageLimit | CursorOutOfRange

  const CURSOR_LIMIT := 0x8000_0000_0000_0000

  /** One query: at most `limit + 1` rows are fetched, and the extra one only tells that more exist. */
  method LoadTimeline(events: seq<Event>, after: Option<nat>, limit: nat) returns (r: Result<Page, PageError>)
    requires Numbered(events)
    ensures r.Success? <==> 0 < limit <= MAX_TIMELINE_PAGE && (after.Some? ==> after.value < CURSOR_LIMIT)
    ensures r.Success? ==> r.value == PageOf(events, if after.None? then 0 else after.value, limit)
  {
    if limit == 0 || limit > MAX_TIMELINE_PAGE {
      return Failure(InvalidPageLimit);
    }
    var cursor := if after.None? then 0 else after.value;
    if cursor >= CURSOR_LIMIT {
      return Failure(CursorOutOfRange);
    }
    hide RowsAfter;
    ghost var start := if cursor < |events| then cursor else |events|;
    RowsAreSuffix(events, 0, cursor);
    var rows := RowsAfter(events, cursor);
    assert rows == events[start..];
    var fetched := if |rows| > limit + 1 then rows[..limit + 1] else rows;
    var hasMore := |fetched| > limit;
    var kept := if hasMore then fetched[..limit] else fetched;
    FetchedIsPage(events, cursor, start, limit, kept, hasMore);
    return Success(Page(kept, hasMore));
  }
}

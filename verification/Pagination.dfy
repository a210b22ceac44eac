/** `query_phone_events` and its walk by `next_offset` (mcp_tools.py). */
module Pagination {
  import opened Wrappers
  import opened Seqs
  import opened Order
  import opened Timestamps
  import opened Types
  import opened Ingestion
  import Text
  import opened Queries

  const MAX_PAGE_SIZE := 1000
  const MAX_RANGE := 31 * DAY

  datatype ToolError = EmptyWindow | WindowTooWide | LimitTooSmall | LimitTooLarge | NegativeOffset

  datatype Answer = Refused(error: ToolError) | Answer(events: seq<Key>, hasMore: bool, nextOffset: Option<nat>)

  /** What the pages of a walk have in common. */
  datatype Query = Query(device: Id, start: Moment, end: Moment, sources: Option<seq<string>>)

  function Keys(raw: map<Id, RawRow>, q: Query): set<Key> {
    WindowKeys(raw, q.device, q.start, q.end, q.sources)
  }

  /** The keys of the selected events, in the order every page is cut from. */
  function Selection(raw: map<Id, RawRow>, q: Query): seq<Key> {
    Enumerate(Keys(raw, q))
  }

  /** One call: an extra row tells whether there is more. */
  function QueryEvents(raw: map<Id, RawRow>, q: Query, limit: int, offset: int): Answer {
    if q.end <= q.start then Refused(EmptyWindow)
    else if q.end - q.start > MAX_RANGE then Refused(WindowTooWide)
    else if limit < 1 then Refused(LimitTooSmall)
    else if limit > MAX_PAGE_SIZE then Refused(LimitTooLarge)
    else if offset < 0 then Refused(NegativeOffset)
    else
      var found := Page(Selection(raw, q), limit + 1, offset);
      var hasMore := |found| > limit;
      Answer(if hasMore then found[..limit] else found, hasMore, if hasMore then Some(offset + limit) else None)
  }

  /** The requests that are not refused, but for a negative offset. */
  predicate Allowed(q: Query, limit: int) {
    q.start < q.end && q.end - q.start <= MAX_RANGE && 1 <= limit <= MAX_PAGE_SIZE
  }

  /** The rows of a page are the rows of its keys. */
  lemma PageRows(raw: map<Id, RawRow>, q: Query, limit: nat, offset: nat)
    ensures var ks := Page(Selection(raw, q), limit, offset);
            (forall k :: k in ks ==> k.id in raw) &&
            EventsInWindow(raw, q.device, q.start, q.end, q.sources, limit, offset) == RowsOf(raw, ks)
  {
  }

  /** What a page is, in terms of the whole list: a slice, with more to come exactly when the list goes on. */
  lemma PageIsSlice(raw: map<Id, RawRow>, q: Query, limit: int, offset: int)
    requires Allowed(q, limit) && 0 <= offset
    ensures var all := Selection(raw, q);
            var a := QueryEvents(raw, q, limit, offset);
            && a.Answer? && a.events == Page(all, limit, offset)
            && (a.hasMore <==> offset + limit < |all|)
            && a.nextOffset == (if a.hasMore then Some(offset + limit) else None)
  {
    hide Selection;
    var all := Selection(raw, q);
    if offset < |all| {
      if offset + limit + 1 < |all| {
        assert all[offset..offset + limit + 1][..limit] == all[offset..offset + limit];
      } else if offset + limit < |all| {
        assert all[offset..][..limit] == all[offset..offset + limit];
      }
    }
  }

  /** Which requests are refused, the first fault deciding: windows of at most 31 days, pages of at most 1000 events. */
  lemma RefusedExactly(raw: map<Id, RawRow>, q: Query, limit: int, offset: int)
    ensures var a, span := QueryEvents(raw, q, limit, offset), q.end - q.start;
            var days := 31 * 24 * 3600 * 1_000_000;
            && (a == Refused(EmptyWindow) <==> span <= 0)
            && (a == Refused(WindowTooWide) <==> span > days)
            && (a == Refused(LimitTooSmall) <==> 0 < span <= days && limit < 1)
            && (a == Refused(LimitTooLarge) <==> 0 < span <= days && limit > 1000)
            && (a == Refused(NegativeOffset) <==> 0 < span <= days && 1 <= limit <= 1000 && offset < 0)
            && (a.Answer? <==> 0 < span <= days && 1 <= limit <= 1000 && 0 <= offset)
  {
    hide Selection;
    if Allowed(q, limit) && 0 <= offset {
      PageIsSlice(raw, q, limit, offset);
    }
  }

  // ---------------------------------------------------------------- a walk over a table that stands still

  /** The events of all answers from an offset on, each call made with the `next_offset` of the one before. */
  function Walk(raw: map<Id, RawRow>, q: Query, limit: nat, offset: nat): seq<seq<Key>>
    requires Allowed(q, limit)
    decreases |Selection(raw, q)| - offset
  {
    PageIsSlice(raw, q, limit, offset);
    var a := QueryEvents(raw, q, limit, offset);
    [a.events] + (match a.nextOffset case Some(next) => Walk(raw, q, limit, next) case None => [])
  }

  function Concat(pages: seq<seq<Key>>): seq<Key> {
    if pages == [] then [] else pages[0] + Concat(pages[1..])
  }

  function PageCount(n: nat, limit: nat): nat
    requires limit >= 1
  {
    if n == 0 then 1 else (n + limit - 1) / limit
  }

  lemma {:induction false} WalkFrom(raw: map<Id, RawRow>, q: Query, limit: nat, offset: nat)
    requires Allowed(q, limit) && offset <= |Selection(raw, q)|
    ensures Concat(Walk(raw, q, limit, offset)) == Selection(raw, q)[offset..]
    ensures |Walk(raw, q, limit, offset)| == PageCount(|Selection(raw, q)| - offset, limit)
    decreases |Selection(raw, q)| - offset
  {
    hide Selection, QueryEvents, PageCount;
    PageIsSlice(raw, q, limit, offset);
    var all := Selection(raw, q);
    var rest := if offset + limit < |all| then Walk(raw, q, limit, offset + limit) else [];
    assert Walk(raw, q, limit, offset) == [Page(all, limit, offset)] + rest;
    assert Walk(raw, q, limit, offset)[1..] == rest;
    if offset + limit < |all| {
      WalkFrom(raw, q, limit, offset + limit);
      OnePageMore(|all| - offset - limit, limit);
      assert all[offset..] == all[offset..offset + limit] + all[offset + limit..];
    } else if offset < |all| {
      LastPage(|all| - offset, limit);
    } else {
      NoPages(limit);
    }
  }

  lemma NoPages(limit: nat)
    requires limit >= 1
    ensures PageCount(0, limit) == 1
  {
  }

  lemma OnePageMore(n: nat, limit: nat)
    requires limit >= 1 && n >= 1
    ensures PageCount(n + limit, limit) == 1 + PageCount(n, limit)
  {
    var q, r := (n + limit - 1) / limit, (n + limit - 1) % limit;
    assert n + limit + limit - 1 == limit * (q + 1) + r;
    Quotient(n + limit + limit - 1, limit, q + 1, r);
  }

  lemma LastPage(n: nat, limit: nat)
    requires 1 <= n <= limit
    ensures PageCount(n, limit) == 1
  {
    Quotient(n + limit - 1, limit, 1, n - 1);
  }

  lemma Quotient(k: nat, n: nat, q: nat, r: nat)
    requires r < n && k == n * q + r
    ensures k / n == q
  {
    var d, m := k / n, k % n;
    assert k == n * d + m;
    if d != q {
      Apart(n, d, q);
    }
  }

  lemma Apart(n: nat, d: nat, q: nat)
    requires d != q
    ensures n * d + n <= n * q || n * q + n <= n * d
  {
    if d < q {
      assert n * (d + 1) <= n * q;
    } else {
      assert n * (q + 1) <= n * d;
    }
  }

  /**
   On a table that stands still, following `next_offset` from zero returns the ordered event list, every event
   once, in as many pages as it takes, and one page when there is nothing.
   */
  lemma StaticWalk(raw: map<Id, RawRow>, q: Query, limit: nat)
    requires Allowed(q, limit)
    ensures var all := Selection(raw, q);
            && Concat(Walk(raw, q, limit, 0)) == all && Distinct(all)
            && (forall k :: k in all <==>
                  k.id in raw && k.time == raw[k.id].event.time &&
                    Asked(raw[k.id], q.device, q.start, q.end, q.sources))
            && (forall i, j :: 0 <= i < j < |all| ==> InOrder(all[i], all[j]))
            && |Walk(raw, q, limit, 0)| == PageCount(|all|, limit)
  {
    hide Walk, PageCount, Asked, InOrder, Enumerate;
    var all := Selection(raw, q);
    SelectionExact(raw, q.device, q.start, q.end, q.sources);
    WalkFrom(raw, q, limit, 0);
    SortedDistinct(all);
    assert all[0..] == all;
  }

  // ---------------------------------------------------------------- a walk over a table that changes

  /** The offset of the i-th call: `next_offset` adds the limit each time. */
  function Offset(i: nat, limit: nat): nat {
    if i == 0 then 0 else Offset(i - 1, limit) + limit
  }

  /** The i-th call, answered from the table as it is then. */
  function AnswerAt(tables: seq<map<Id, RawRow>>, i: nat, q: Query, limit: nat): Answer
    requires i < |tables|
  {
    QueryEvents(tables[i], q, limit, Offset(i, limit))
  }

  /** A complete walk: every answer but the last gives the offset of the next call, the last one gives none. */
  ghost predicate CompleteWalk(tables: seq<map<Id, RawRow>>, q: Query, limit: nat) {
    && |tables| >= 1 && Allowed(q, limit)
    && (forall i :: 0 <= i < |tables| ==>
          AnswerAt(tables, i, q, limit).Answer? &&
          AnswerAt(tables, i, q, limit).nextOffset == if i + 1 < |tables| then Some(Offset(i + 1, limit)) else None)
  }

  ghost predicate ShownAt(tables: seq<map<Id, RawRow>>, i: nat, q: Query, limit: nat, key: Key) {
    i < |tables| && AnswerAt(tables, i, q, limit).Answer? && key in AnswerAt(tables, i, q, limit).events
  }

  ghost predicate Shown(tables: seq<map<Id, RawRow>>, q: Query, limit: nat, key: Key) {
    exists i: nat :: ShownAt(tables, i, q, limit, key)
  }

  /** The event is in the window whenever a page is cut. */
  ghost predicate Present(tables: seq<map<Id, RawRow>>, q: Query, key: Key) {
    forall i :: 0 <= i < |tables| ==> key in Keys(tables[i], q)
  }

  /** How many selected rows come before an event: its position in the list. */
  function RowsBefore(raw: map<Id, RawRow>, q: Query, key: Key): nat {
    |Smaller(Keys(raw, q), key)|
  }

  /** An answer shows an event exactly when its position is on the page. */
  lemma PageShows(raw: map<Id, RawRow>, q: Query, limit: nat, offset: nat, key: Key)
    requires Allowed(q, limit) && key in Keys(raw, q)
    ensures key in QueryEvents(raw, q, limit, offset).events <==>
            offset <= RowsBefore(raw, q, key) < offset + limit
    ensures QueryEvents(raw, q, limit, offset).nextOffset.None? ==> RowsBefore(raw, q, key) < offset + limit
  {
    hide Keys, Enumerate, Smaller, QueryEvents;
    PageIsSlice(raw, q, limit, offset);
    var all := Selection(raw, q);
    var p :| 0 <= p < |all| && all[p] == key;
    PositionIsRank(Keys(raw, q), p);
    SortedDistinct(all);
    OnPage(all, limit, offset, p);
  }

  lemma OnPage(all: seq<Key>, limit: nat, offset: nat, p: nat)
    requires p < |all| && Distinct(all)
    ensures all[p] in Page(all, limit, offset) <==> offset <= p < offset + limit
  {
    var page := Page(all, limit, offset);
    assert forall i :: 0 <= i < |page| ==> page[i] == all[offset + i];
    if offset <= p < offset + limit {
      assert page[p - offset] == all[p];
    }
  }

  /** Between page `i` and the next, rows before an event not yet shown go, and it falls below the next offset. */
  ghost predicate FallsAt(tables: seq<map<Id, RawRow>>, i: nat, q: Query, limit: nat, key: Key) {
    i + 1 < |tables| && RowsBefore(tables[i + 1], q, key) < Offset(i + 1, limit) <= RowsBefore(tables[i], q, key)
  }

  /** However the table changes, an event that is there throughout is missed only by falling. */
  lemma MissedByFalling(tables: seq<map<Id, RawRow>>, q: Query, limit: nat, key: Key)
    requires CompleteWalk(tables, q, limit) && Present(tables, q, key) && !Shown(tables, q, limit, key)
    ensures exists i: nat :: FallsAt(tables, i, q, limit, key)
  {
    var i := FallsFrom(tables, q, limit, key, 0);
  }

  lemma {:induction false} FallsFrom(tables: seq<map<Id, RawRow>>, q: Query, limit: nat, key: Key, i: nat)
    returns (f: nat)
    requires CompleteWalk(tables, q, limit) && Present(tables, q, key) && !Shown(tables, q, limit, key)
    requires i < |tables| && Offset(i, limit) <= RowsBefore(tables[i], q, key)
    ensures FallsAt(tables, f, q, limit, key)
    decreases |tables| - i
  {
    hide QueryEvents, Keys, RowsBefore;
    PageShows(tables[i], q, limit, Offset(i, limit), key);
    assert !ShownAt(tables, i, q, limit, key);
    assert AnswerAt(tables, i, q, limit).Answer?;
    if RowsBefore(tables[i + 1], q, key) < Offset(i + 1, limit) {
      f := i;
    } else {
      f := FallsFrom(tables, q, limit, key, i + 1);
    }
  }

  /** Rows are only ever removed, as retention does. */
  ghost predicate Shrinking(tables: seq<map<Id, RawRow>>) {
    forall i, k, id :: 0 <= i <= k < |tables| && id in tables[k] ==> id in tables[i] && tables[i][id] == tables[k][id]
  }

  /** Rows are only ever added, as ingestion does. */
  ghost predicate Growing(tables: seq<map<Id, RawRow>>) {
    forall i, k, id :: 0 <= i <= k < |tables| && id in tables[i] ==> id in tables[k] && tables[k][id] == tables[i][id]
  }

  /** A table with more rows has at least as many before an event. */
  lemma MoreRowsBefore(raw: map<Id, RawRow>, more: map<Id, RawRow>, q: Query, key: Key)
    requires forall id :: id in raw ==> id in more && more[id] == raw[id]
    ensures Keys(raw, q) <= Keys(more, q) && RowsBefore(raw, q, key) <= RowsBefore(more, q, key)
  {
    hide Selected;
    SubsetSize(Smaller(Keys(raw, q), key), Smaller(Keys(more, q), key));
  }

  lemma {:induction false} OffsetsGrow(i: nat, k: nat, limit: nat)
    requires i <= k
    ensures Offset(i, limit) <= Offset(k, limit)
    decreases k - i
  {
    if i < k {
      OffsetsGrow(i, k - 1, limit);
    }
  }

  /**
   While rows are only removed, a complete walk misses an event that is there throughout exactly when at some
   page so many rows before it go that its position falls below the next offset.
   */
  lemma RemovalsSkip(tables: seq<map<Id, RawRow>>, q: Query, limit: nat, key: Key)
    requires CompleteWalk(tables, q, limit) && Present(tables, q, key) && Shrinking(tables)
    ensures !Shown(tables, q, limit, key) <==> exists i: nat :: FallsAt(tables, i, q, limit, key)
  {
    hide QueryEvents, Keys, RowsBefore, Offset;
    if !Shown(tables, q, limit, key) {
      MissedByFalling(tables, q, limit, key);
    }
    if f: nat :| FallsAt(tables, f, q, limit, key) {
      forall i: nat
        ensures !ShownAt(tables, i, q, limit, key)
      {
        if i < |tables| {
          NotShownAt(tables, q, limit, key, f, i);
        }
      }
    }
  }

  lemma NotShownAt(tables: seq<map<Id, RawRow>>, q: Query, limit: nat, key: Key, f: nat, i: nat)
    requires CompleteWalk(tables, q, limit) && Present(tables, q, key) && Shrinking(tables)
    requires FallsAt(tables, f, q, limit, key) && i < |tables|
    ensures !ShownAt(tables, i, q, limit, key)
  {
    hide QueryEvents, Keys, RowsBefore;
    PageShows(tables[i], q, limit, Offset(i, limit), key);
    if i <= f {
      MoreRowsBefore(tables[f], tables[i], q, key);
      OffsetsGrow(i + 1, f + 1, limit);
    } else {
      MoreRowsBefore(tables[i], tables[f + 1], q, key);
      OffsetsGrow(f + 1, i, limit);
    }
  }

  /**
   While rows are only added, a complete walk shows every event that was there when it began, although one
   that moves back may be shown twice.
   */
  lemma NothingSkipped(tables: seq<map<Id, RawRow>>, q: Query, limit: nat, key: Key)
    requires CompleteWalk(tables, q, limit) && Growing(tables) && key in Keys(tables[0], q)
    ensures Shown(tables, q, limit, key)
  {
    hide QueryEvents, Keys, RowsBefore, Offset;
    forall i | 0 <= i < |tables|
      ensures key in Keys(tables[i], q)
    {
      MoreRowsBefore(tables[0], tables[i], q, key);
    }
    if !Shown(tables, q, limit, key) {
      MissedByFalling(tables, q, limit, key);
      var f: nat :| FallsAt(tables, f, q, limit, key);
      MoreRowsBefore(tables[f], tables[f + 1], q, key);
    }
  }

  // ---------------------------------------------------------------- a walk that misses an event

  /** Three events of one window, in order. */
  ghost predicate ThreeEvents(raw: map<Id, RawRow>, q: Query, a: Key, b: Key, c: Key) {
    Keys(raw, q) == {a, b, c} && Before(a, b) && Before(b, c)
  }

  /**
   Retention that runs between two pages and deletes the event already shown makes the walk miss the next one,
   although it is in the window before and after.
   */
  lemma DeletionSkips(raw: map<Id, RawRow>, q: Query, a: Key, b: Key, c: Key, cutoff: string)
    requires Allowed(q, 1) && ThreeEvents(raw, q, a, b, c) && Text.Less(a.time, cutoff) && !Text.Less(b.time, cutoff)
    ensures var tables := [raw, Expire(raw, cutoff)];
            && AnswerAt(tables, 0, q, 1) == Answer([a], true, Some(1))
            && AnswerAt(tables, 1, q, 1) == Answer([c], false, None)
            && CompleteWalk(tables, q, 1) && Present(tables, q, b) && !Shown(tables, q, 1, b)
  {
    hide QueryEvents, Keys, Expire, Before, Text.Less, Offset;
    var left := Expire(raw, cutoff);
    KeysAfterExpire(raw, q, a, b, c, cutoff);
    TwoAnswers(raw, left, q, a, b, c);
    TwoOffsets();
    var tables := [raw, left];
    forall i: nat
      ensures !ShownAt(tables, i, q, 1, b)
    {
      assert i < |tables| ==> i == 0 || i == 1;
    }
  }

  lemma TwoOffsets()
    ensures Offset(0, 1) == 0 && Offset(1, 1) == 1
  {
  }

  /** The two answers when the first event goes between the calls. */
  lemma TwoAnswers(raw: map<Id, RawRow>, left: map<Id, RawRow>, q: Query, a: Key, b: Key, c: Key)
    requires Allowed(q, 1) && ThreeEvents(raw, q, a, b, c) && Keys(left, q) == {b, c}
    ensures QueryEvents(raw, q, 1, 0) == Answer([a], true, Some(1))
    ensures QueryEvents(left, q, 1, 1) == Answer([c], false, None)
    ensures a != b && b != c
  {
    hide *;
    ThreeKeys(raw, q, a, b, c);
    SortedThree(a, b, c);
    SelectionIs(raw, q);
    SelectionIs(left, q);
    PageIsSlice(raw, q, 1, 0);
    PageIsSlice(left, q, 1, 1);
    PagesOfThree(a, b, c);
  }

  lemma SelectionIs(raw: map<Id, RawRow>, q: Query)
    ensures Selection(raw, q) == Enumerate(Keys(raw, q))
  {
  }

  lemma ThreeKeys(raw: map<Id, RawRow>, q: Query, a: Key, b: Key, c: Key)
    requires ThreeEvents(raw, q, a, b, c)
    ensures Keys(raw, q) == {a, b, c} && Before(a, b) && Before(b, c)
  {
  }

  lemma SortedThree(a: Key, b: Key, c: Key)
    requires Before(a, b) && Before(b, c)
    ensures Enumerate({a, b, c}) == [a, b, c] && Enumerate({b, c}) == [b, c] && a != b && b != c
  {
    hide Before, Enumerate;
    BeforeTransitive(a, b, c);
    BeforeIrreflexive(a);
    BeforeIrreflexive(b);
    assert Sorted([a, b, c]) && Sorted([b, c]);
    SortedUnique(Enumerate({a, b, c}), [a, b, c]);
    SortedUnique(Enumerate({b, c}), [b, c]);
  }

  lemma PagesOfThree(a: Key, b: Key, c: Key)
    ensures Page([a, b, c], 1, 0) == [a] && Page([b, c], 1, 1) == [c]
  {
  }

  lemma KeysAfterExpire(raw: map<Id, RawRow>, q: Query, a: Key, b: Key, c: Key, cutoff: string)
    requires ThreeEvents(raw, q, a, b, c) && Text.Less(a.time, cutoff) && !Text.Less(b.time, cutoff)
    ensures Keys(Expire(raw, cutoff), q) == {b, c}
  {
    hide Text.Less, Selected;
    var left := Expire(raw, cutoff);
    assert !Text.Less(c.time, cutoff) by {
      NotEarlier(b, c, cutoff);
    }
    forall k: Key
      ensures k in Keys(left, q) <==> k in {b, c}
    {
      assert k in Keys(left, q) <==> k in Keys(raw, q) && !Text.Less(k.time, cutoff);
      assert a in Keys(raw, q) && b in Keys(raw, q) && c in Keys(raw, q);
    }
  }

  lemma NotEarlier(b: Key, c: Key, cutoff: string)
    requires Before(b, c) && !Text.Less(b.time, cutoff)
    ensures !Text.Less(c.time, cutoff)
  {
    if Text.Less(c.time, cutoff) && b.time != c.time {
      Text.LessTransitive(b.time, c.time, cutoff);
    }
  }
}

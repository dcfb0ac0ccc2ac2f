/** The pure part of the mock event store (src/lib/mockData.ts): the bounded,
    newest-first insertion of `addEvent` and the cursor pagination of
    `getEvents`, as functions on the stored list, with the properties that
    relate several calls (resumption, stability under insertion, exhaustive
    paging). */
module Paging {
  import opened Types

  /** The store keeps at most this many events (mockData.ts:137-138). */
  const MAX_EVENTS: nat := 1000

  function Min(a: int, b: int): int { if a <= b then a else b }

  /** `events.findIndex(e => e.event_id === id)`: the first position holding
      `id`, or -1 when there is none. */
  function FindIndex(s: seq<ActivityEvent>, id: string): (r: int)
    ensures -1 <= r < |s|
    ensures r == -1 ==> forall i :: 0 <= i < |s| ==> s[i].event_id != id
    ensures r >= 0 ==> s[r].event_id == id && forall i :: 0 <= i < r ==> s[i].event_id != id
  {
    if s == [] then -1
    else if s[0].event_id == id then 0
    else
      var k := FindIndex(s[1..], id);
      if k == -1 then -1 else k + 1
  }

  /** Where a page starts: right after the cursor event, or at the top when
      the cursor is falsy or not found (`findIndex` gives -1, plus one is 0). */
  function StartIndex(s: seq<ActivityEvent>, cursor: Option<string>): (r: nat)
    ensures r <= |s|
    ensures !Truthy(cursor) ==> r == 0
    ensures Truthy(cursor) && r > 0 ==> s[r - 1].event_id == cursor.value
  {
    if Truthy(cursor) then FindIndex(s, cursor.value) + 1 else 0
  }

  /** For a truthy cursor the page starts one past the first event carrying
      the cursor's identifier, and at 0 exactly when no event carries it. */
  lemma StartIndexAfterFirstMatch(s: seq<ActivityEvent>, cursor: Option<string>)
    requires Truthy(cursor)
    ensures var r := StartIndex(s, cursor);
      && (r == 0 <==> forall i :: 0 <= i < |s| ==> s[i].event_id != cursor.value)
      && (r > 0 ==> s[r - 1].event_id == cursor.value && forall i :: 0 <= i < r - 1 ==> s[i].event_id != cursor.value)
  {
  }

  /** `getEvents(limit, cursor)`. A `next_cursor` that JavaScript computes as
      `undefined` (limit 0 with more events left) is represented, like `null`,
      by None. */
  function GetPage(s: seq<ActivityEvent>, limit: nat, cursor: Option<string>): (p: FeedPage)
    ensures |p.items| <= limit
    ensures !Truthy(cursor) ==> p.items == s[..Min(limit, |s|)]
    ensures |p.items| == Min(limit, |s| - StartIndex(s, cursor))
    ensures p.items == s[StartIndex(s, cursor)..StartIndex(s, cursor) + |p.items|]
    ensures p.next_cursor.Some? <==> limit > 0 && StartIndex(s, cursor) + limit < |s|
    ensures p.next_cursor.Some? ==> |p.items| == limit && p.next_cursor.value == p.items[limit - 1].event_id
  {
    PageFrom(s, StartIndex(s, cursor), limit)
  }

  /** The slice `s.slice(start, start + limit)` and its `next_cursor`:
      `hasMore ? items[items.length - 1]?.event_id : null`. */
  function PageFrom(s: seq<ActivityEvent>, start: nat, limit: nat): FeedPage
    requires start <= |s|
  {
    var items := s[start..Min(start + limit, |s|)];
    var hasMore := start + limit < |s|;
    FeedPage(items, if hasMore && |items| > 0 then Some(items[|items| - 1].event_id) else None)
  }

  /** `addEvent`'s list update: `unshift`, then keep the first MAX_EVENTS. */
  function AddedFront(s: seq<ActivityEvent>, e: ActivityEvent): (r: seq<ActivityEvent>)
    ensures |r| == Min(|s| + 1, MAX_EVENTS)
    ensures r[0] == e
    ensures r[1..] == s[..|r| - 1]
  {
    var t := [e] + s;
    if |t| > MAX_EVENTS then t[..MAX_EVENTS] else t
  }

  /** A cursor naming a stored event resumes right after that event's first
      occurrence; with distinct identifiers, right after the event itself. */
  lemma CursorResumesAfter(s: seq<ActivityEvent>, k: nat)
    requires DistinctIds(s) && k < |s| && s[k].event_id != ""
    ensures StartIndex(s, Some(s[k].event_id)) == k + 1
  {
  }

  /** A truthy cursor that names no stored event gives the first page again. */
  lemma UnknownCursorRestarts(s: seq<ActivityEvent>, limit: nat, c: string)
    requires c != ""
    requires forall i :: 0 <= i < |s| ==> s[i].event_id != c
    ensures GetPage(s, limit, Some(c)) == GetPage(s, limit, None)
  {
  }

  /** A page read from a list equals the page read from one of its suffixes
      when the two start at the same event. */
  lemma PageOfSuffix(t: seq<ActivityEvent>, d: nat, limit: nat, ct: Option<string>, cu: Option<string>)
    requires d <= |t| && StartIndex(t, ct) == StartIndex(t[d..], cu) + d
    ensures GetPage(t, limit, ct) == GetPage(t[d..], limit, cu)
  {
    PageFromSuffix(t, d, StartIndex(t, ct), limit);
  }

  /** Reading from position `start` of a list or from `start - d` of its
      suffix after `d` gives the same page. */
  lemma PageFromSuffix(t: seq<ActivityEvent>, d: nat, start: nat, limit: nat)
    requires d <= start <= |t|
    ensures PageFrom(t, start, limit) == PageFrom(t[d..], start - d, limit)
  {
    var end := Min(start + limit, |t|);
    assert Min(start - d + limit, |t| - d) == end - d;
    assert t[d..][start - d..end - d] == t[start..end];
  }

  /** Cutting the list after the page's start can only shorten the page. */
  lemma PageOfPrefix(s: seq<ActivityEvent>, n: nat, limit: nat, c: Option<string>)
    requires n <= |s| && StartIndex(s[..n], c) == StartIndex(s, c)
    ensures GetPage(s[..n], limit, c).items <= GetPage(s, limit, c).items
  {
    var start := StartIndex(s, c);
    var short := Min(start + limit, n);
    assert s[..n][start..short] == s[start..short];
  }

  /** Below the cap, an insertion in front leaves the page after a stored
      cursor event unchanged, items and `next_cursor` alike. */
  lemma {:induction false} PageStableUnderAdd(s: seq<ActivityEvent>, e: ActivityEvent, limit: nat, k: nat)
    requires |s| < MAX_EVENTS && k < |s|
    requires s[k].event_id != "" && e.event_id != s[k].event_id
    ensures GetPage(AddedFront(s, e), limit, Some(s[k].event_id)) == GetPage(s, limit, Some(s[k].event_id))
  {
    var c := s[k].event_id;
    var t := AddedFront(s, e);
    assert t[1..] == s;
    assert FindIndex(t, c) == FindIndex(s, c) + 1;
    PageOfSuffix(t, 1, limit, Some(c), Some(c));
  }

  /** At the cap, the page after a cursor event that survives the eviction is
      a prefix of the page before the insertion: the same events follow the
      cursor, only the evicted tail is missing. */
  lemma {:induction false} PageShrinksUnderEviction(s: seq<ActivityEvent>, e: ActivityEvent, limit: nat, k: nat)
    requires |s| == MAX_EVENTS && k + 1 < MAX_EVENTS
    requires s[k].event_id != "" && e.event_id != s[k].event_id
    requires FindIndex(s, s[k].event_id) == k
    ensures GetPage(AddedFront(s, e), limit, Some(s[k].event_id)).items <= GetPage(s, limit, Some(s[k].event_id)).items
  {
    var c := s[k].event_id;
    var t := AddedFront(s, e);
    var u := s[..MAX_EVENTS - 1];
    assert t[1..] == u;
    FindIndexOfPrefix(s, MAX_EVENTS - 1, c);
    assert FindIndex(t, c) == k + 1;
    PageOfSuffix(t, 1, limit, Some(c), Some(c));
    PageOfPrefix(s, MAX_EVENTS - 1, limit, Some(c));
  }

  /** When truncation evicts the only copy of the cursor event, the next read
      restarts from the top of the list. */
  lemma EvictedCursorRestarts(s: seq<ActivityEvent>, e: ActivityEvent, limit: nat)
    requires |s| == MAX_EVENTS
    requires s[MAX_EVENTS - 1].event_id != "" && e.event_id != s[MAX_EVENTS - 1].event_id
    requires forall i :: 0 <= i < MAX_EVENTS - 1 ==> s[i].event_id != s[MAX_EVENTS - 1].event_id
    ensures GetPage(AddedFront(s, e), limit, Some(s[MAX_EVENTS - 1].event_id))
         == GetPage(AddedFront(s, e), limit, None)
  {
    var c := s[MAX_EVENTS - 1].event_id;
    var t := AddedFront(s, e);
    forall i | 0 <= i < |t| ensures t[i].event_id != c {
      if i > 0 { assert t[i] == t[1..][i - 1] == s[i - 1]; }
    }
    UnknownCursorRestarts(t, limit, c);
  }

  /** `findIndex` on a prefix that still holds the first occurrence. */
  lemma {:induction false} FindIndexOfPrefix(s: seq<ActivityEvent>, n: nat, id: string)
    requires n <= |s| && 0 <= FindIndex(s, id) < n
    ensures FindIndex(s[..n], id) == FindIndex(s, id)
  {
    if s[0].event_id != id {
      assert s[..n][1..] == s[1..][..n - 1];
      FindIndexOfPrefix(s[1..], n - 1, id);
    }
  }

  /** A page that hands out a `next_cursor` is full, and that cursor resumes
      right after it. */
  lemma NextCursorAdvances(s: seq<ActivityEvent>, limit: nat, cursor: Option<string>)
    requires DistinctIds(s) && NonEmptyIds(s)
    requires GetPage(s, limit, cursor).next_cursor.Some?
    ensures var start := StartIndex(s, cursor);
      && start + limit < |s|
      && GetPage(s, limit, cursor).items == s[start..start + limit]
      && StartIndex(s, GetPage(s, limit, cursor).next_cursor) == start + limit
  {
    var start := StartIndex(s, cursor);
    var p := GetPage(s, limit, cursor);
    assert p.items[limit - 1] == s[start + limit - 1];
    CursorResumesAfter(s, start + limit - 1);
  }

  /** Every event read by following `next_cursor` from `cursor` until it is
      null, without insertions in between, in the order read. */
  ghost function ReadAll(s: seq<ActivityEvent>, limit: nat, cursor: Option<string>): (r: seq<ActivityEvent>)
    requires limit > 0 && DistinctIds(s) && NonEmptyIds(s)
    decreases |s| - StartIndex(s, cursor)
  {
    var p := GetPage(s, limit, cursor);
    if p.next_cursor.None? then p.items
    else
      NextCursorAdvances(s, limit, cursor);
      p.items + ReadAll(s, limit, p.next_cursor)
  }

  /** Paging from any position returns every later event exactly once, in
      stored order. */
  lemma {:induction false} ReadAllFrom(s: seq<ActivityEvent>, limit: nat, cursor: Option<string>)
    requires limit > 0 && DistinctIds(s) && NonEmptyIds(s)
    ensures ReadAll(s, limit, cursor) == s[StartIndex(s, cursor)..]
    decreases |s| - StartIndex(s, cursor)
  {
    var p := GetPage(s, limit, cursor);
    var start := StartIndex(s, cursor);
    if p.next_cursor.Some? {
      NextCursorAdvances(s, limit, cursor);
      ReadAllFrom(s, limit, p.next_cursor);
      assert ReadAll(s, limit, cursor) == p.items + ReadAll(s, limit, p.next_cursor);
      JoinSlices(s, start, start + limit, |s|);
    } else {
      assert p.items == s[start..];
    }
  }

  /** Following `next_cursor` from a cursor-less read visits the whole store,
      each event once, newest first. */
  lemma PagingVisitsEveryEventOnce(s: seq<ActivityEvent>, limit: nat)
    requires limit > 0 && DistinctIds(s) && NonEmptyIds(s)
    ensures ReadAll(s, limit, None) == s
  {
    ReadAllFrom(s, limit, None);
  }

  /** A list of loaded events that is the store's first |events| events, and
      whose cursor is the last of them, or null once everything is loaded. */
  ghost predicate LoadedPrefix(s: seq<ActivityEvent>, events: seq<ActivityEvent>, cursor: Option<string>) {
    && events <= s
    && (cursor.Some? ==> events != [] && cursor.value == events[|events| - 1].event_id)
    && (Truthy(cursor) ==> |events| < |s|)
    && (!Truthy(cursor) ==> events == s)
  }

  /** The first page establishes LoadedPrefix. */
  lemma FirstPageIsLoadedPrefix(s: seq<ActivityEvent>, limit: nat)
    requires limit > 0 && NonEmptyIds(s)
    ensures LoadedPrefix(s, GetPage(s, limit, None).items, GetPage(s, limit, None).next_cursor)
  {
    var p := GetPage(s, limit, None);
    if p.next_cursor.Some? {
      assert p.next_cursor.value == s[limit - 1].event_id;
    }
  }

  /** Appending the page after the cursor keeps LoadedPrefix and loads at
      least one more event. */
  lemma NextPageExtendsLoadedPrefix(s: seq<ActivityEvent>, events: seq<ActivityEvent>, cursor: Option<string>, limit: nat)
    requires limit > 0 && DistinctIds(s) && NonEmptyIds(s)
    requires LoadedPrefix(s, events, cursor) && Truthy(cursor)
    ensures var p := GetPage(s, limit, cursor);
      LoadedPrefix(s, events + p.items, p.next_cursor) && |events + p.items| > |events|
  {
    var b := |events|;
    assert events[b - 1] == s[b - 1];
    CursorResumesAfter(s, b - 1);
    var p := GetPage(s, limit, cursor);
    assert events + p.items == s[..Min(b + limit, |s|)];
    if p.next_cursor.Some? {
      assert p.items[limit - 1] == s[b + limit - 1];
    }
  }

  /** A page whose last event has the empty identifier hands out `""` as its
      `next_cursor`; being falsy, that cursor reads the first page again, so
      following `next_cursor` until it is null does not end. */
  lemma EmptyIdCursorRestarts(s: seq<ActivityEvent>, limit: nat, cursor: Option<string>)
    requires GetPage(s, limit, cursor).next_cursor == Some("")
    ensures StartIndex(s, GetPage(s, limit, cursor).next_cursor) == 0
    ensures GetPage(s, limit, GetPage(s, limit, cursor).next_cursor) == GetPage(s, limit, None)
  {
  }

  /** An event with every field but its identifier fixed. */
  function EventWithId(id: string): ActivityEvent
  {
    ActivityEvent(id, "", "", "", Like, "", "", None, [], 0)
  }

  /** With a repeated identifier, a page can hand out a cursor whose first
      occurrence lies before the page: reading with it returns the same page,
      so following `next_cursor` until it is null does not end. */
  lemma RepeatedIdCursorRepeats()
    ensures var s := [EventWithId("x"), EventWithId("a"), EventWithId("y"), EventWithId("a"), EventWithId("z"), EventWithId("w")];
      var p := GetPage(s, 2, Some("a"));
      && !DistinctIds(s)
      && p.items == s[2..4]
      && p.next_cursor == Some("a")
      && GetPage(s, 2, p.next_cursor) == p
  {
    var s := [EventWithId("x"), EventWithId("a"), EventWithId("y"), EventWithId("a"), EventWithId("z"), EventWithId("w")];
    assert s[1].event_id == s[3].event_id;
    assert s[0].event_id != "a";
    assert FindIndex(s, "a") == 1;
    assert StartIndex(s, Some("a")) == 2;
  }

  /** Where the loaded run must end: just before the next page's start for a
      truthy cursor, the end of the list once the cursor is falsy. */
  function RunEnd(s: seq<ActivityEvent>, cursor: Option<string>): (k: nat)
    ensures k <= |s|
  {
    if Truthy(cursor) then StartIndex(s, cursor) else |s|
  }

  /** `shown` is a contiguous run of the store that ends where the cursor
      resumes (with a truthy cursor, some events are still left to load), or
      that reaches the end of the store once the cursor is falsy. Unlike
      LoadedPrefix, this survives insertions in front. */
  ghost predicate LoadedRun(s: seq<ActivityEvent>, shown: seq<ActivityEvent>, cursor: Option<string>) {
    var k := RunEnd(s, cursor);
    && |shown| <= k
    && shown == s[k - |shown|..k]
    && (Truthy(cursor) ==> shown != [] && k < |s|)
  }

  /** A loaded run that starts at the top of the store. */
  ghost predicate LoadedFromTop(s: seq<ActivityEvent>, shown: seq<ActivityEvent>, cursor: Option<string>) {
    LoadedRun(s, shown, cursor) && |shown| == RunEnd(s, cursor)
  }

  /** With distinct non-empty identifiers, a loaded prefix is a loaded run from the top. */
  lemma PrefixIsFromTop(s: seq<ActivityEvent>, events: seq<ActivityEvent>, cursor: Option<string>)
    requires DistinctIds(s) && NonEmptyIds(s) && LoadedPrefix(s, events, cursor)
    ensures LoadedFromTop(s, events, cursor)
  {
    if Truthy(cursor) {
      assert events[|events| - 1] == s[|events| - 1];
      CursorResumesAfter(s, |events| - 1);
    }
  }

  /** The first page of a store with non-empty identifiers is a loaded
      prefix and, when the identifiers are distinct, the run from the top
      that ends at its cursor. */
  lemma FirstPageLoads(s: seq<ActivityEvent>, limit: nat)
    requires limit > 0
    ensures var p := GetPage(s, limit, None);
      && (NonEmptyIds(s) ==> LoadedPrefix(s, p.items, p.next_cursor))
      && (DistinctIds(s) && NonEmptyIds(s) ==> LoadedFromTop(s, p.items, p.next_cursor))
  {
    if NonEmptyIds(s) {
      FirstPageIsLoadedPrefix(s, limit);
      if DistinctIds(s) {
        var p := GetPage(s, limit, None);
        PrefixIsFromTop(s, p.items, p.next_cursor);
      }
    }
  }

  /** No event appears twice in a run of a store without repeated identifiers. */
  lemma LoadedRunDistinct(s: seq<ActivityEvent>, shown: seq<ActivityEvent>, cursor: Option<string>)
    requires LoadedRun(s, shown, cursor) && DistinctIds(s)
    ensures DistinctIds(shown)
  {
    var k := RunEnd(s, cursor);
    var b := k - |shown|;
    forall i, j | 0 <= i < j < |shown| ensures shown[i].event_id != shown[j].event_id {
      assert shown[i] == s[b + i] && shown[j] == s[b + j];
    }
  }

  /** Below the cap, an insertion with an identifier other than the cursor's
      keeps a loaded run, which now ends one position later. */
  lemma {:induction false} RunAfterFrontInsert(s: seq<ActivityEvent>, e: ActivityEvent, shown: seq<ActivityEvent>, cursor: Option<string>)
    requires |s| < MAX_EVENTS && LoadedRun(s, shown, cursor)
    requires Truthy(cursor) ==> e.event_id != cursor.value
    ensures RunEnd(AddedFront(s, e), cursor) == RunEnd(s, cursor) + 1
    ensures LoadedRun(AddedFront(s, e), shown, cursor)
  {
    var t := AddedFront(s, e);
    assert t[1..] == s;
    var k := RunEnd(s, cursor);
    if Truthy(cursor) {
      assert FindIndex(s, cursor.value) == k - 1;
      assert t[1..] == s && t[0].event_id != cursor.value;
      assert FindIndex(t, cursor.value) == k;
    }
    assert t[k + 1 - |shown|..k + 1] == s[k - |shown|..k];
  }

  /** A live arrival below the cap: with the event put in front of the
      buffer, the buffer and the loaded events are again a run from the top. */
  lemma TopAfterFrontInsert(s: seq<ActivityEvent>, e: ActivityEvent, buffer: seq<ActivityEvent>, loaded: seq<ActivityEvent>, cursor: Option<string>)
    requires |s| < MAX_EVENTS && LoadedFromTop(s, buffer + loaded, cursor)
    requires Truthy(cursor) ==> e.event_id != cursor.value
    ensures LoadedFromTop(AddedFront(s, e), [e] + buffer + loaded, cursor)
  {
    var shown := buffer + loaded;
    assert [e] + buffer + loaded == [e] + shown;
    RunAfterFrontInsert(s, e, shown, cursor);
    var t := AddedFront(s, e);
    var k := RunEnd(s, cursor);
    assert shown == s[..k];
    assert t[..k + 1] == [e] + s[..k];
  }

  /** What an arrival below the cap, with an identifier other than the
      cursor's, does to what the feed has loaded: a loaded run stays one and,
      when the event is buffered, buffer and loaded events stay a run from
      the top. */
  lemma ArrivalKeepsRuns(s: seq<ActivityEvent>, e: ActivityEvent, buffer: seq<ActivityEvent>, loaded: seq<ActivityEvent>, cursor: Option<string>)
    ensures |s| < MAX_EVENTS && (Truthy(cursor) ==> e.event_id != cursor.value) ==>
      && (LoadedRun(s, loaded, cursor) ==> LoadedRun(AddedFront(s, e), loaded, cursor))
      && (LoadedFromTop(s, buffer + loaded, cursor) ==> LoadedFromTop(AddedFront(s, e), [e] + buffer + loaded, cursor))
  {
    if |s| < MAX_EVENTS && (Truthy(cursor) ==> e.event_id != cursor.value) {
      if LoadedRun(s, loaded, cursor) {
        RunAfterFrontInsert(s, e, loaded, cursor);
      }
      if LoadedFromTop(s, buffer + loaded, cursor) {
        TopAfterFrontInsert(s, e, buffer, loaded, cursor);
      }
    }
  }

  /** Appending the page after a truthy cursor extends a loaded run by at
      least one event; a run from the top stays one. */
  lemma NextPageExtendsRun(s: seq<ActivityEvent>, shown: seq<ActivityEvent>, cursor: Option<string>, limit: nat)
    requires limit > 0 && DistinctIds(s) && NonEmptyIds(s)
    requires LoadedRun(s, shown, cursor) && Truthy(cursor)
    ensures var p := GetPage(s, limit, cursor);
      && LoadedRun(s, shown + p.items, p.next_cursor)
      && |shown + p.items| > |shown|
      && (|shown| == RunEnd(s, cursor) ==> |shown + p.items| == RunEnd(s, p.next_cursor))
  {
    var p := GetPage(s, limit, cursor);
    var k := StartIndex(s, cursor);
    var b := k - |shown|;
    assert shown == s[b..k];
    var end := k + |p.items|;
    assert p.items == s[k..end];
    JoinSlices(s, b, k, end);
    if p.next_cursor.Some? {
      NextCursorAdvances(s, limit, cursor);
      assert p.next_cursor.value == s[end - 1].event_id;
      assert Truthy(p.next_cursor);
    } else {
      assert end == |s|;
    }
  }

  /** Adjacent slices join. */
  lemma JoinSlices<T>(s: seq<T>, i: nat, j: nat, l: nat)
    requires i <= j <= l <= |s|
    ensures s[i..j] + s[j..l] == s[i..l]
  {
  }

  /** An insertion with a fresh, non-empty identifier keeps the identifiers
      distinct and non-empty, also when the oldest event is evicted. */
  lemma AddedFrontKeepsIds(s: seq<ActivityEvent>, e: ActivityEvent)
    requires DistinctIds(s) && NonEmptyIds(s) && e.event_id != ""
    requires forall i :: 0 <= i < |s| ==> s[i].event_id != e.event_id
    ensures DistinctIds(AddedFront(s, e)) && NonEmptyIds(AddedFront(s, e))
  {
    var t := AddedFront(s, e);
    forall i | 0 < i < |t| ensures t[i] == s[i - 1] {
      assert t[i] == t[1..][i - 1];
    }
  }

  /** What appending the page after a truthy cursor does to each of the three
      descriptions of what has been loaded, with a buffer of shown events
      above the loaded ones. */
  lemma NextPageLoads(s: seq<ActivityEvent>, buffer: seq<ActivityEvent>, events: seq<ActivityEvent>, cursor: Option<string>, limit: nat)
    requires limit > 0 && DistinctIds(s) && NonEmptyIds(s) && Truthy(cursor)
    ensures var p := GetPage(s, limit, cursor);
      && (LoadedPrefix(s, events, cursor) ==> LoadedPrefix(s, events + p.items, p.next_cursor) && |events + p.items| > |events|)
      && (LoadedRun(s, events, cursor) ==> LoadedRun(s, events + p.items, p.next_cursor) && |events + p.items| > |events|)
      && (LoadedFromTop(s, buffer + events, cursor) ==> LoadedFromTop(s, buffer + (events + p.items), p.next_cursor))
  {
    var p := GetPage(s, limit, cursor);
    if LoadedPrefix(s, events, cursor) {
      NextPageExtendsLoadedPrefix(s, events, cursor, limit);
    }
    if LoadedRun(s, events, cursor) {
      NextPageExtendsRun(s, events, cursor, limit);
    }
    if LoadedFromTop(s, buffer + events, cursor) {
      NextPageExtendsTop(s, buffer, events, cursor, limit);
    }
  }

  /** The page after the cursor, appended below a buffer and the loaded
      events, keeps a run from the top one. */
  lemma NextPageExtendsTop(s: seq<ActivityEvent>, buffer: seq<ActivityEvent>, events: seq<ActivityEvent>, cursor: Option<string>, limit: nat)
    requires limit > 0 && DistinctIds(s) && NonEmptyIds(s) && Truthy(cursor)
    requires LoadedFromTop(s, buffer + events, cursor)
    ensures LoadedFromTop(s, buffer + (events + GetPage(s, limit, cursor).items), GetPage(s, limit, cursor).next_cursor)
  {
    var p := GetPage(s, limit, cursor);
    NextPageExtendsRun(s, buffer + events, cursor, limit);
    assert buffer + (events + p.items) == buffer + events + p.items;
  }
}

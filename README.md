# Event stream hub: the mock event store and its client state, in Dafny

The event-stream-hub UI fronts an activity feed with no backend: a singleton
in-memory `EventStore` (src/lib/mockData.ts) holds a newest-first list of at
most 1000 events, serves cursor-paginated pages, and calls registered
listeners on every new event. Three components keep state over it or beside
it: the activity feed (a loaded list, a buffer of live events not yet shown,
a cursor and a load-in-flight flag, where neither list has a cap), and two
panels that keep bounded, tick-updated lists: the notification panel (newest
20, mark-all-read, unread badge) and the system-metrics panel (last 30
samples).

This project models that code and proves what it promises:

- `Types` — the records of src/types/events.ts as datatypes; JavaScript
  truthiness of an optional string (`Truthy`), used by both the store and the
  feed when they test a cursor.
- `Sorting` — the descending `Array.prototype.sort` the store constructor and
  the generators use, as an insertion sort proved to order and to permute.
- `Paging` — the pure part of the store: `findIndex`, the start index, a page
  and its `next_cursor`, the capped front insertion, and the lemmas relating
  several calls: resumption after a cursor, an unknown or evicted cursor
  restarting at the top, pages unchanged under insertion, and that following
  `next_cursor` from the top visits every stored event exactly once in order.
- `MockData` — the `EventStore` class (events, listeners, and whether the
  simulation interval is set), the listener filter with its lemmas, and the
  ordering of `generateFeed` and `generateTopItems`.
- `Feed` — the `ActivityFeed` component as a class over the store: mount,
  live arrivals, "show new", the two halves of the asynchronous "load more",
  pause/resume and unmount, with an object invariant (the cursor names the
  last loaded event; the callback is subscribed exactly once while live).
- `Notifications`, `Metrics` — the two panels' pure updaters, their lemmas and
  the classes that apply them per tick.

Modelling choices:

- Timestamps are integers (milliseconds), not ISO strings, so newest-first
  ordering is integer comparison.
- A listener is an identity (`ListenerId`) compared as `!==` compares
  functions. `AddEvent` returns the listeners to call, in registration order,
  after the list update; the feed's `Dispatch` is the `forEach` over them with
  the feed's own callback body. Other components' callbacks are not part of
  this model.
- Random draws, `Date.now()` and timer firings are parameters: each interval
  firing is one method call (`SimulationTick`, `Notifications.NotificationPanel.Tick`,
  `Metrics.SystemMetricsPanel.Tick`); the `Math.random() > 0.7` draw of the
  notification channel is the `arrives` flag.
- `loadMore` awaits a 500 ms delay; it is split into `BeginLoadMore` (the guard
  and `setLoadingMore(true)`) and `CompleteLoadMore` (the fetch and the state
  updates), so that arrivals can interleave between them.
- With limit 0 and more events left, `next_cursor` is `undefined` in the
  source (`items[-1]?.event_id`); the model represents it, like `null`, by
  `None`. So `next_cursor` is absent exactly when the limit is 0 or the page
  reaches the end — slightly sharper than "null exactly when `start + limit >=
  length`", which holds for every positive limit.
- The paging guarantees assume distinct, non-empty event ids. The `evt_`
  prefix makes every generated id non-empty; distinct ids are what the
  generators produce with overwhelming probability (nine random base-36
  characters), not a guarantee. An event with the empty id `""` at the end of a page
  makes `next_cursor` the string `""`, which is falsy: a read with it starts
  at the top again (`Paging.EmptyIdCursorRestarts`), so a client following
  `next_cursor` until it is null loops, while the feed (which tests
  truthiness) stops showing "Load more".
  With a repeated id, a read resumes after the first event carrying it, which
  can lie before the page just read: the page can hand out the same cursor
  again (`Paging.RepeatedIdCursorRepeats`), so such a client also loops and
  the feed's "Load more" appends events it already shows.
- How much of the store the feed has shown is described three ways.
  `LoadedPrefix`: the shown events are the store's first ones; any arrival
  breaks this. `LoadedRun`: they are a contiguous run of the store ending
  where the cursor resumes; this survives arrivals below the cap, live or
  paused. `LoadedFromTop`: a run that starts at the top; buffer plus events
  keep it while the feed is live. While paused, arrivals are not buffered,
  so the shown list is a run that no longer starts at the top.

## Model

| member | source | states |
|---|---|---|
| Sorting.SortDesc | src/lib/mockData.ts:116 | the result never increases by key, is a permutation of the input, and has its length |
| Sorting.Insert | src/lib/mockData.ts:116 | inserting into a sorted list keeps it sorted and adds exactly that element |
| Sorting.ConsSorted | src/lib/mockData.ts:116 | an element ranking at least as high as the head of a sorted list extends it sorted |
| Sorting.TailSorted | src/lib/mockData.ts:116 | dropping the head keeps a list sorted, and the head ranks at least as high as the new head |
| Paging.FindIndex | src/lib/mockData.ts:144 | -1 exactly when no event has the id; otherwise the first position holding it |
| Paging.StartIndex | src/lib/mockData.ts:144 | 0 for a falsy cursor; for a truthy cursor and a positive start, the event just before the start carries the cursor id |
| Paging.StartIndexAfterFirstMatch | src/lib/mockData.ts:144 | for a truthy cursor the start is 0 exactly when no stored event has its id, and otherwise it is one past the first event that has it |
| Paging.GetPage | src/lib/mockData.ts:143-152 | at most `limit` items, the events from the start index in stored order; without cursor the first `min(limit, n)`; `next_cursor` present iff `limit > 0` and `start + limit < n`, and then it is the last item's id (the body reads the page at the start index with `PageFrom`) |
| Paging.AddedFront | src/lib/mockData.ts:136-139 | the new event at index 0, followed by the old events in order, truncated to `min(n + 1, 1000)` |
| Paging.CursorResumesAfter | src/lib/mockData.ts:144 | with distinct ids, the cursor of the event at k starts the next page at k + 1 |
| Paging.NextCursorAdvances | src/lib/mockData.ts:144-151 | with distinct non-empty ids, a page that hands out a `next_cursor` is full and that cursor starts the next page right after it |
| Paging.UnknownCursorRestarts | src/lib/mockData.ts:144 | a truthy cursor naming no stored event gives the same page as no cursor |
| Paging.PageOfSuffix | src/lib/mockData.ts:144-151 | a list and one of its suffixes give the same page, items and `next_cursor`, when the two reads start at the same event |
| Paging.PageOfPrefix | src/lib/mockData.ts:144-151 | cutting the list after the page start gives a page that is a prefix of the original page |
| Paging.PageFromSuffix | src/lib/mockData.ts:145-151 | the slice and `next_cursor` read at position `start` of a list equal those read at `start - d` of its suffix after `d` |
| Paging.PageStableUnderAdd | src/lib/mockData.ts:136-150 | below the cap, an insertion with another id leaves the page after a stored cursor event unchanged, items and `next_cursor` |
| Paging.PageShrinksUnderEviction | src/lib/mockData.ts:136-150 | at the cap, if the cursor event survives, the page after it is a prefix of the page before the insertion |
| Paging.EvictedCursorRestarts | src/lib/mockData.ts:137-144 | when truncation evicts the only copy of the cursor event, the next read is the first page |
| Paging.FindIndexOfPrefix | src/lib/mockData.ts:144 | a prefix that still holds the first occurrence gives the same `findIndex` |
| Paging.ReadAllFrom | src/lib/mockData.ts:143-150 | following `next_cursor` from any cursor until it is null (the ghost function `ReadAll`) returns exactly the events after the start index, in order |
| Paging.PagingVisitsEveryEventOnce | src/lib/mockData.ts:143-150 | with distinct non-empty ids and no insertion in between, paging from a cursor-less read returns the whole stored list, each event once |
| Paging.FirstPageIsLoadedPrefix | src/components/feed/ActivityFeed.tsx:19-21 | the first page is a prefix of the store whose cursor is its last id, or null exactly when it is the whole store |
| Paging.NextPageExtendsLoadedPrefix | src/components/feed/ActivityFeed.tsx:56-58 | appending the page after such a cursor keeps that prefix property and loads at least one more event |
| Paging.EmptyIdCursorRestarts | src/lib/mockData.ts:144-150 | a page whose last event has the empty id hands out `""` as `next_cursor`, and reading with it gives the first page again |
| Paging.PrefixIsFromTop | src/components/feed/ActivityFeed.tsx:19-21 | with distinct non-empty ids, a loaded prefix is a run from the top of the store ending where its cursor resumes |
| Paging.FirstPageLoads | src/components/feed/ActivityFeed.tsx:19-21 | the first page is a loaded prefix (non-empty ids) and a run from the top ending at its cursor (distinct non-empty ids) |
| Paging.LoadedRunDistinct | src/lib/mockData.ts:136-150 | a run of a store without repeated ids shows no event twice |
| Paging.RepeatedIdCursorRepeats | src/lib/mockData.ts:144-150 | a store with a repeated id whose page of 2 after cursor `a` hands out `a` again, so the next read returns the same page |
| Paging.RunAfterFrontInsert | src/lib/mockData.ts:136-144 | below the cap, an insertion with an id other than the cursor's keeps a loaded run, and the cursor then resumes one position later |
| Paging.TopAfterFrontInsert | src/components/feed/ActivityFeed.tsx:37-39 | below the cap, the event put in front of the buffer keeps buffer and loaded events a run from the top |
| Paging.ArrivalKeepsRuns | src/components/feed/ActivityFeed.tsx:37-39 | below the cap, an arrival with an id other than the cursor's keeps a loaded run, and with the event in front of the buffer keeps buffer plus loaded events a run from the top |
| Paging.NextPageExtendsRun | src/components/feed/ActivityFeed.tsx:56-58 | appending the page after a truthy cursor keeps a loaded run, adds at least one event, and keeps a run from the top one |
| Paging.NextPageExtendsTop | src/components/feed/ActivityFeed.tsx:56-58 | buffer, loaded events and the appended page are again a run from the top ending at the new cursor |
| Paging.NextPageLoads | src/components/feed/ActivityFeed.tsx:56-58 | the page after a truthy cursor extends each of a loaded prefix, a loaded run and a run from the top shown with the buffer |
| Paging.AddedFrontKeepsIds | src/lib/mockData.ts:136-139 | an insertion with a fresh non-empty id keeps the ids distinct and non-empty, also when the oldest event is evicted |
| MockData.AppendAddsOccurrence | src/lib/mockData.ts:155 | `push` adds exactly one occurrence of the pushed listener and none of any other |
| MockData.Occurrences | src/lib/mockData.ts:155-157 | never more than the list length, and 0 exactly when the listener is not registered |
| MockData.Without | src/lib/mockData.ts:157 | no longer than the list, and holds exactly the registered listeners other than the removed one |
| MockData.WithoutOccurrences | src/lib/mockData.ts:157 | the filter removes every occurrence of the listener and keeps every other listener's count |
| MockData.WithoutConcat | src/lib/mockData.ts:157 | the filter distributes over concatenation, so the remaining listeners keep their order |
| MockData.WithoutAbsent | src/lib/mockData.ts:157 | removing a listener that is not registered leaves the list as it was |
| MockData.EventStore.constructor | src/lib/mockData.ts:113-117 | the 50 generated events, newest first and a permutation of the input; no listeners; simulation not running |
| MockData.EventStore.StartSimulation | src/lib/mockData.ts:119-126 | the interval is set afterwards, whether or not it already was; events and listeners unchanged |
| MockData.EventStore.StopSimulation | src/lib/mockData.ts:128-133 | the interval is cleared afterwards; events and listeners unchanged |
| MockData.EventStore.AddEvent | src/lib/mockData.ts:135-141 | the stored list becomes the capped front insertion; the cap is kept; the listeners to call are all registered ones in registration order |
| MockData.EventStore.SimulationTick | src/lib/mockData.ts:122-125 | a firing adds the generated event stamped with the current time in front |
| MockData.EventStore.Subscribe | src/lib/mockData.ts:154-155 | the listener is appended, adding one occurrence |
| MockData.EventStore.Unsubscribe | src/lib/mockData.ts:156-158 | the returned function leaves the filtered list, with no occurrence of the listener left |
| MockData.EventStore.GetEvents | src/lib/mockData.ts:143-152 | the page `GetPage` describes, of the stored events, with the source's default limit of 20 and no cursor |
| MockData.EventStore.GetTotalCount | src/lib/mockData.ts:161-163 | the number of stored events, never more than 1000 |
| MockData.GenerateFeed | src/lib/mockData.ts:88-96 | the generated events newest first, a permutation of them, with a `cursor_` token |
| MockData.BaseCount | src/lib/mockData.ts:67 | `floor(1000 / (i + 1))` plus the jitter lies between the jitter and 1000 more, and is exactly 1000 more for the first item |
| MockData.DrawnItems | src/lib/mockData.ts:64-67 | item i counts `floor(1000 / (i + 1))` plus its random jitter |
| MockData.GenerateTopItems | src/lib/mockData.ts:63-86 | the drawn items ranked by count, highest first, a permutation of them |
| MockData.TopItemAtLeastThousand | src/lib/mockData.ts:67-85 | the top-ranked item counts at least 1000 |
| Feed.ActivityFeed.constructor | src/components/feed/ActivityFeed.tsx:10-15 | the `useState` initial values: loading, live, nothing loaded, no cursor |
| Feed.ActivityFeed.InitialLoad | src/components/feed/ActivityFeed.tsx:18-26 | events and cursor are the store's first page of 20 and its `next_cursor`, loading ends, the simulation runs, nothing is subscribed yet |
| Feed.ActivityFeed.Mount | src/components/feed/ActivityFeed.tsx:18-42 | events and cursor are the store's first page of 20 and its `next_cursor`, loading ends, the simulation runs and the callback is subscribed once; with non-empty ids the loaded list is a prefix of the store, and with distinct non-empty ids it is also a run from its top |
| Feed.ActivityFeed.Dispatch | src/components/feed/ActivityFeed.tsx:37-39 | each call of this feed's callback puts the event in front of the buffer |
| Feed.ActivityFeed.Deliver | src/lib/mockData.ts:135-141 | the store gets the capped front insertion and this feed's callback, when registered, buffers the event |
| Feed.ActivityFeed.Arrival | src/components/feed/ActivityFeed.tsx:35-39 | the store gets the capped front insertion; the buffer gets the event in front exactly while live and mounted; below the cap, with an id other than the cursor's, a loaded run stays one and, while live, buffer plus events stay the run from the top |
| Feed.ActivityFeed.LoadNewEvents | src/components/feed/ActivityFeed.tsx:44-47 | events become buffer followed by events; the buffer empties; a run (from the top) of buffer plus events becomes one of the events |
| Feed.ActivityFeed.ShowsLoadMore | src/components/feed/ActivityFeed.tsx:139-159 | "Load more" is rendered only when there are loaded events and the cursor is the last one's id |
| Feed.ActivityFeed.BeginLoadMore | src/components/feed/ActivityFeed.tsx:49-52 | starts exactly when "Load more" is shown and no load is in flight |
| Feed.ActivityFeed.AppendPage | src/components/feed/ActivityFeed.tsx:56-59 | the store's page after the cursor is appended, the cursor becomes its `next_cursor`, the load ends |
| Feed.ActivityFeed.CompleteLoadMore | src/components/feed/ActivityFeed.tsx:56-59 | the store's page after the cursor is appended, the cursor becomes its `next_cursor`, the load ends; with distinct non-empty ids a loaded prefix and a loaded run each stay one and grow (the run showing no event twice), and buffer plus events stay the run from the top |
| Feed.ActivityFeed.ToggleLive | src/components/feed/ActivityFeed.tsx:62-69 | `isLive` flips; the simulation runs exactly when live; the callback is removed when pausing and appended when resuming |
| Feed.ActivityFeed.Pause | src/components/feed/ActivityFeed.tsx:34-42 | from live (`stopSimulation`, then the subscription cleanup): the simulation is stopped and every registration of the callback is removed, keeping the invariant |
| Feed.ActivityFeed.Resume | src/components/feed/ActivityFeed.tsx:34-42 | from paused (`startSimulation`, then the effect subscribes again): the callback is registered once and the simulation runs, keeping the invariant |
| Feed.ActivityFeed.Unmount | src/components/feed/ActivityFeed.tsx:28-42 | the simulation stops and the callback is no longer registered; while live the callback's registrations are filtered out, the rest of the list kept in order, and otherwise the list is unchanged |
| Notifications.WithNew | src/components/notifications/NotificationPanel.tsx:34 | the new notification first, then the first 19 older ones in order; length `min(n + 1, 20)` |
| Notifications.AllRead | src/components/notifications/NotificationPanel.tsx:42 | same length and order, every item read, every other field unchanged |
| Notifications.CountUnread | src/components/notifications/NotificationPanel.tsx:45 | never more than the number of notifications |
| Notifications.NoUnreadIffAllRead | src/components/notifications/NotificationPanel.tsx:45 | the count is 0 exactly when every notification is read |
| Notifications.AllReadClearsUnread | src/components/notifications/NotificationPanel.tsx:41-45 | right after mark-all-read the unread count is 0 |
| Notifications.WithNewCountsOneMore | src/components/notifications/NotificationPanel.tsx:30-34 | a pushed unread notification adds one to the unread count of the kept older ones |
| Notifications.NotificationPanel.constructor | src/components/notifications/NotificationPanel.tsx:16-22 | the list holds exactly the 8 generated notifications |
| Notifications.NotificationPanel.SetOpen | src/components/notifications/NotificationPanel.tsx:25-26 | the panel's open state is the parent's |
| Notifications.NotificationPanel.Tick | src/components/notifications/NotificationPanel.tsx:25-39 | a notification is inserted only while open and when the draw fires; it is unread and stamped now; the cap of 20 is kept |
| Notifications.NotificationPanel.MarkAllRead | src/components/notifications/NotificationPanel.tsx:41-43 | every notification marked read, so the unread count is 0 |
| Notifications.NotificationPanel.UnreadCount | src/components/notifications/NotificationPanel.tsx:45 | the badge never exceeds the list length |
| Metrics.LastN | src/components/analytics/SystemMetricsPanel.tsx:16 | the last `min(n, length)` elements |
| Metrics.PushSample | src/components/analytics/SystemMetricsPanel.tsx:16 | the new sample last, preceded by the most recent `min(n, 29)` earlier samples in order; length `min(n + 1, 30)` |
| Metrics.PushSampleKeepsWindow | src/components/analytics/SystemMetricsPanel.tsx:16 | pushing onto the last 30 samples gives the last 30 samples including the new one |
| Metrics.SystemMetricsPanel.constructor | src/components/analytics/SystemMetricsPanel.tsx:9-10 | no sample yet, empty history |
| Metrics.SystemMetricsPanel.Tick | src/components/analytics/SystemMetricsPanel.tsx:12-17 | `metrics` is the new sample; the history is `PushSample` of the old one (length `min(n + 1, 30)`) and, by the object invariant, the last 30 samples ever drawn |

## Left out

- Feed.ActivityFeed.Arrival: at the cap of 1000 the insertion evicts the oldest event, and no run guarantee is claimed for that case; what happens to the next page is stated separately by `Paging.PageShrinksUnderEviction` and `Paging.EvictedCursorRestarts`.
- Feed.ActivityFeed.CompleteLoadMore: the `LoadedPrefix` guarantee only holds until the first arrival; for a feed that has seen arrivals it is the `LoadedRun` and `LoadedFromTop` guarantees that carry over.
- Content generation with `Math.random` and `Date.now` (src/lib/mockData.ts:18-61, 98-105): generated events, notifications, metrics and random tokens are parameters.
- The per-verb split of `generateTopItems` (`Math.floor(baseCount * 0.4)` and so on): floating point.
- Stability of `Array.prototype.sort`: the model's sort is stable by construction, but only order and permutation are proved.
- The `metadata` field of events: opaque and unused by the modelled code.
- Timer scheduling (`setInterval`, `clearInterval`, the random period, the 500 ms and 300 ms delays): each firing is one method call; the interval handle is the boolean `simulating`.
- Callbacks other than the feed's own: they are other components' code; `AddEvent` reports which listeners are called and in which order.
- A listener unsubscribing while `forEach` runs: no modelled callback does that.
- Paging.GetPage: `limit` is a natural number; negative or fractional limits, which JavaScript's `slice` would interpret, never occur in the UI (it always passes 20).
- The connection indicator of the notification panel (`isConnected`, never changed) and all rendering: JSX, animation, icons, the header badge, gauge percentages and bar widths.
- The backend described only as prose on the design-doc page (fanout, idempotency, caches, decayed top-K): it is not code.

/** The state of the `ActivityFeed` component
    (src/components/feed/ActivityFeed.tsx) as an object over the event store.
    Each handler and each effect is one method; a React state update is an
    assignment to the field of the same name. */
module Feed {
  import opened Types
  import opened Paging
  import opened MockData

  /** The feed reads pages of this many events. */
  const PAGE_SIZE: nat := 20

  class ActivityFeed {
    /** The `eventStore` singleton. */
    const store: EventStore
    /** The identity of this feed's subscription callback. */
    const me: ListenerId

    var events: seq<ActivityEvent>
    var newEvents: seq<ActivityEvent>
    var loading: bool
    var loadingMore: bool
    var cursor: Option<string>
    var isLive: bool

    /** The cursor names the last loaded event; a load in flight has a cursor;
        the callback is registered exactly once while live and mounted; the
        simulation runs exactly while live. */
    ghost predicate Valid()
      reads this, store
    {
      && store.Valid()
      && (cursor.Some? ==> events != [] && cursor.value == events[|events| - 1].event_id)
      && (loadingMore ==> Truthy(cursor))
      && Occurrences(store.listeners, me) == (if isLive && !loading then 1 else 0)
      && (!loading ==> store.simulating == isLive)
      && (loading ==> events == [] && newEvents == [] && cursor == None && !loadingMore && isLive)
    }

    /** The `useState` initial values. */
    constructor (s: EventStore, callback: ListenerId)
      requires s.Valid() && callback !in s.listeners
      ensures Valid() && store == s && me == callback
      ensures loading && isLive && !loadingMore
      ensures events == [] && newEvents == [] && cursor == None
    {
      store := s;
      me := callback;
      events := [];
      newEvents := [];
      loading := true;
      loadingMore := false;
      cursor := None;
      isLive := true;
    }

    /** The initial-load effect: the first page is read, loading ends and,
        because the feed starts live, the simulation is started. The
        subscription effect has not run yet. */
    method InitialLoad()
      requires Valid() && loading
      modifies this, store`simulating
      ensures store.Valid() && !loading && isLive && !loadingMore && newEvents == []
      ensures events == GetPage(store.events, PAGE_SIZE, None).items
      ensures cursor == GetPage(store.events, PAGE_SIZE, None).next_cursor
      ensures store.events == old(store.events) && store.simulating
      ensures store.listeners == old(store.listeners) && Occurrences(store.listeners, me) == 0
      ensures cursor.Some? ==> events != [] && cursor.value == events[|events| - 1].event_id
    {
      var page := store.GetEvents(PAGE_SIZE, None);
      events := page.items;
      cursor := page.next_cursor;
      loading := false;
      if isLive {
        store.StartSimulation();
      }
    }

    /** The two mount effects: the first page is loaded and the simulation
        started, then the callback subscribes because the feed is live. */
    method Mount()
      requires Valid() && loading
      modifies this, store
      ensures Valid() && !loading && isLive && !loadingMore && newEvents == []
      ensures events == GetPage(store.events, PAGE_SIZE, None).items
      ensures cursor == GetPage(store.events, PAGE_SIZE, None).next_cursor
      ensures store.events == old(store.events) && store.simulating
      ensures store.listeners == old(store.listeners) + [me]
      ensures NonEmptyIds(store.events) ==> LoadedPrefix(store.events, events, cursor)
      ensures DistinctIds(store.events) && NonEmptyIds(store.events) ==> LoadedFromTop(store.events, newEvents + events, cursor)
    {
      FirstPageLoads(store.events, PAGE_SIZE);
      InitialLoad();
      if isLive {
        store.Subscribe(me);
      }
      assert newEvents + events == events;
    }

    /** The store's `listeners.forEach(listener => listener(event))`, where
        this feed's own callback is `setNewEvents(prev => [event, ...prev])`
        and the other callbacks are not this component's. */
    method Dispatch(notified: seq<ListenerId>, e: ActivityEvent)
      modifies this`newEvents
      ensures newEvents == seq(Occurrences(notified, me), _ => e) + old(newEvents)
    {
      var i := 0;
      while i < |notified|
        invariant 0 <= i <= |notified|
        invariant newEvents == seq(Occurrences(notified[..i], me), _ => e) + old(newEvents)
      {
        assert notified[..i + 1][..i] == notified[..i];
        if notified[i] == me {
          newEvents := [e] + newEvents;
        }
        i := i + 1;
      }
      assert notified[..i] == notified;
    }

    /** The store's `addEvent` followed by the callbacks it notifies. */
    method Deliver(e: ActivityEvent)
      requires Valid()
      modifies this`newEvents, store
      ensures Valid()
      ensures store.events == AddedFront(old(store.events), e)
      ensures store.listeners == old(store.listeners) && store.simulating == old(store.simulating)
      ensures newEvents == (if isLive && !loading then [e] else []) + old(newEvents)
    {
      var notified := store.AddEvent(e);
      Dispatch(notified, e);
      assert seq(1, _ => e) == [e];
    }

    /** An event reaches the store (from the simulation interval or the
        simulator form) and the store calls its listeners: while live, the
        event is buffered in front of the not-yet-shown events. Below the cap,
        and unless the event reuses the cursor's identifier, a loaded run stays
        a loaded run, and while live the run from the top shown with the
        buffer stays one. */
    method Arrival(e: ActivityEvent)
      requires Valid()
      modifies this`newEvents, store
      ensures Valid()
      ensures store.events == AddedFront(old(store.events), e)
      ensures store.listeners == old(store.listeners) && store.simulating == old(store.simulating)
      ensures newEvents == (if isLive && !loading then [e] else []) + old(newEvents)
      ensures |old(store.events)| < MAX_EVENTS && (Truthy(cursor) ==> e.event_id != cursor.value) ==>
        && (old(LoadedRun(store.events, events, cursor)) ==> LoadedRun(store.events, events, cursor))
        && (isLive && !loading && old(LoadedFromTop(store.events, newEvents + events, cursor))
            ==> LoadedFromTop(store.events, newEvents + events, cursor))
    {
      ghost var s, loaded, buffer := store.events, events, newEvents;
      ArrivalKeepsRuns(s, e, buffer, loaded, cursor);
      Deliver(e);
      assert store.events == AddedFront(s, e) && events == loaded;
      assert isLive && !loading ==> newEvents == [e] + buffer;
    }

    /** `loadNewEvents`: the buffered events are shown above the loaded ones. */
    method LoadNewEvents()
      requires Valid()
      modifies this`events, this`newEvents
      ensures Valid()
      ensures events == old(newEvents) + old(events) && newEvents == []
      ensures old(LoadedRun(store.events, newEvents + events, cursor)) ==> LoadedRun(store.events, events, cursor)
      ensures old(LoadedFromTop(store.events, newEvents + events, cursor)) ==> LoadedFromTop(store.events, events, cursor)
    {
      events := newEvents + events;
      newEvents := [];
    }

    /** The "Load more" button is rendered exactly when the cursor is truthy. */
    predicate ShowsLoadMore()
      reads this, store
      ensures ShowsLoadMore() && Valid() ==> events != [] && cursor == Some(events[|events| - 1].event_id)
    {
      Truthy(cursor)
    }

    /** `loadMore` up to its `await`: nothing happens without a cursor or while
        a load is already in flight; otherwise the load starts. */
    method BeginLoadMore() returns (started: bool)
      requires Valid()
      modifies this`loadingMore
      ensures Valid()
      ensures started == (ShowsLoadMore() && !old(loadingMore))
      ensures loadingMore == (old(loadingMore) || started)
    {
      if !Truthy(cursor) || loadingMore {
        return false;
      }
      loadingMore := true;
      started := true;
    }

    /** The three state updates after the `await`: the page after the
        cursor is appended, the cursor advances and the load ends. */
    method AppendPage()
      requires Valid() && loadingMore
      modifies this`events, this`cursor, this`loadingMore
      ensures Valid() && !loadingMore
      ensures events == old(events) + GetPage(store.events, PAGE_SIZE, old(cursor)).items
      ensures cursor == GetPage(store.events, PAGE_SIZE, old(cursor)).next_cursor
    {
      var page := store.GetEvents(PAGE_SIZE, cursor);
      events := events + page.items;
      cursor := page.next_cursor;
      loadingMore := false;
    }

    /** `loadMore` after its `await`: the store's page after the cursor is
        appended, the cursor advances and the load ends. In a store with
        distinct, non-empty identifiers, a loaded prefix, a loaded run and
        the run from the top shown with the buffer each grow by that page. */
    method CompleteLoadMore()
      requires Valid() && loadingMore
      modifies this`events, this`cursor, this`loadingMore
      ensures Valid() && !loadingMore
      ensures events == old(events) + GetPage(store.events, PAGE_SIZE, old(cursor)).items
      ensures cursor == GetPage(store.events, PAGE_SIZE, old(cursor)).next_cursor
      ensures old(LoadedPrefix(store.events, events, cursor)) && DistinctIds(store.events) && NonEmptyIds(store.events)
        ==> LoadedPrefix(store.events, events, cursor) && |events| > |old(events)|
      ensures old(LoadedRun(store.events, events, cursor)) && DistinctIds(store.events) && NonEmptyIds(store.events)
        ==> LoadedRun(store.events, events, cursor) && |events| > |old(events)| && DistinctIds(events)
      ensures old(LoadedFromTop(store.events, newEvents + events, cursor)) && DistinctIds(store.events) && NonEmptyIds(store.events)
        ==> LoadedFromTop(store.events, newEvents + events, cursor)
    {
      ghost var s, shown, buffer, c := store.events, events, newEvents, cursor;
      ghost var p := GetPage(s, PAGE_SIZE, c);
      if DistinctIds(s) && NonEmptyIds(s) {
        NextPageLoads(s, buffer, shown, c, PAGE_SIZE);
      }
      AppendPage();
      assert store.events == s && newEvents == buffer;
      assert events == shown + p.items && cursor == p.next_cursor;
      if DistinctIds(s) && NonEmptyIds(s) && LoadedRun(s, shown, c) {
        LoadedRunDistinct(s, events, cursor);
      }
    }

    /** `toggleLive`: stops or starts the simulation, flips `isLive`, and the
        subscription effect re-runs: the old subscription's cleanup when the
        feed was live, a new subscription when it becomes live. The handler
        and the effect are one step here, so which of the two store updates
        comes first is not observable. */
    method ToggleLive()
      requires Valid() && !loading
      modifies this`isLive, store
      ensures Valid()
      ensures isLive == !old(isLive) && store.simulating == isLive
      ensures store.listeners == if old(isLive) then Without(old(store.listeners), me) else old(store.listeners) + [me]
      ensures store.events == old(store.events)
    {
      if isLive {
        Pause();
      } else {
        Resume();
      }
    }

    /** `toggleLive` from live: the simulation stops and the callback is
        unsubscribed. */
    method Pause()
      requires Valid() && !loading && isLive
      modifies this`isLive, store
      ensures Valid() && !isLive && !store.simulating
      ensures store.listeners == Without(old(store.listeners), me)
      ensures store.events == old(store.events)
    {
      store.StopSimulation();
      isLive := false;
      store.Unsubscribe(me);
    }

    /** `toggleLive` from paused: the callback subscribes and the simulation
        starts. */
    method Resume()
      requires Valid() && !loading && !isLive
      modifies this`isLive, store
      ensures Valid() && isLive && store.simulating
      ensures store.listeners == old(store.listeners) + [me]
      ensures store.events == old(store.events)
    {
      isLive := true;
      store.Subscribe(me);
      assert Occurrences(store.listeners, me) == 1;
      store.StartSimulation();
      assert store.Valid();
    }

    /** The effects' cleanups on unmount: the simulation stops and the callback
        is no longer registered. */
    method Unmount()
      requires Valid() && !loading
      modifies store
      ensures !store.simulating && me !in store.listeners
      ensures store.listeners == if isLive then Without(old(store.listeners), me) else old(store.listeners)
      ensures store.events == old(store.events)
    {
      if isLive {
        store.Unsubscribe(me);
      }
      store.StopSimulation();
    }
  }
}

/** The in-memory event store of src/lib/mockData.ts and the ordering of the
    mock generators. Generated content (`Math.random`, `Date.now`) arrives as
    parameters; the simulation timer is represented only by whether it is set. */
module MockData {
  import opened Types
  import opened Sorting
  import opened Paging

  /** The constructor pre-populates the store with this many events. */
  const INITIAL_EVENTS: nat := 50

  /** The default page size of `getEvents`. */
  const DEFAULT_LIMIT: nat := 20

  function CreatedAt(e: ActivityEvent): int { e.created_at }

  function ItemCount(t: TopItem): int { t.count }

  /** How often `l` occurs in the listener list. */
  function Occurrences(s: seq<ListenerId>, l: ListenerId): (n: nat)
    ensures n <= |s|
    ensures n == 0 <==> l !in s
  {
    if s == [] then 0
    else Occurrences(s[..|s| - 1], l) + (if s[|s| - 1] == l then 1 else 0)
  }

  /** `listeners.filter(x => x !== l)`. */
  function Without(s: seq<ListenerId>, l: ListenerId): (r: seq<ListenerId>)
    ensures |r| <= |s|
    ensures forall x :: x in r <==> x in s && x != l
  {
    if s == [] then []
    else Without(s[..|s| - 1], l) + (if s[|s| - 1] == l then [] else [s[|s| - 1]])
  }

  /** Subscribing once more adds exactly one occurrence. */
  lemma AppendAddsOccurrence(s: seq<ListenerId>, l: ListenerId, x: ListenerId)
    ensures Occurrences(s + [l], x) == Occurrences(s, x) + (if x == l then 1 else 0)
  {
    assert (s + [l])[..|s|] == s;
  }

  /** Unsubscribing removes every occurrence of `l` and keeps the count of
      every other listener. */
  lemma {:induction false} WithoutOccurrences(s: seq<ListenerId>, l: ListenerId, x: ListenerId)
    ensures Occurrences(Without(s, l), x) == if x == l then 0 else Occurrences(s, x)
  {
    if s != [] {
      var init, last := s[..|s| - 1], s[|s| - 1];
      WithoutOccurrences(init, l, x);
      assert Occurrences(s, x) == Occurrences(init, x) + (if last == x then 1 else 0);
      if last != l {
        assert Without(s, l) == Without(init, l) + [last];
        AppendAddsOccurrence(Without(init, l), last, x);
      } else {
        assert Without(s, l) == Without(init, l);
      }
    }
  }

  /** Removal keeps the others in order: filtering distributes over concatenation. */
  lemma {:induction false} WithoutConcat(a: seq<ListenerId>, b: seq<ListenerId>, l: ListenerId)
    ensures Without(a + b, l) == Without(a, l) + Without(b, l)
    decreases |b|
  {
    if b != [] {
      var init := b[..|b| - 1];
      assert (a + b)[..|a + b| - 1] == a + init;
      WithoutConcat(a, init, l);
    } else {
      assert a + b == a;
    }
  }

  /** Removing a listener that is not registered changes nothing. */
  lemma {:induction false} WithoutAbsent(s: seq<ListenerId>, l: ListenerId)
    requires l !in s
    ensures Without(s, l) == s
  {
    if s != [] {
      assert s[..|s| - 1] + [s[|s| - 1]] == s;
      WithoutAbsent(s[..|s| - 1], l);
    }
  }

  class EventStore {
    /** Newest first, at most MAX_EVENTS long. */
    var events: seq<ActivityEvent>
    /** In registration order. */
    var listeners: seq<ListenerId>
    /** `intervalId !== null`: the simulation interval is set. */
    var simulating: bool

    ghost predicate Valid()
      reads this
    {
      |events| <= MAX_EVENTS
    }

    /** Pre-populates with the generated events, sorted newest first. */
    constructor (generated: seq<ActivityEvent>)
      requires |generated| == INITIAL_EVENTS
      ensures Valid()
      ensures SortedDesc(events, CreatedAt) && multiset(events) == multiset(generated)
      ensures listeners == [] && !simulating
    {
      events := SortDesc(generated, CreatedAt);
      listeners := [];
      simulating := false;
    }

    /** `startSimulation`: sets the interval unless it is already set. */
    method StartSimulation()
      modifies this`simulating
      ensures simulating
      ensures events == old(events) && listeners == old(listeners)
    {
      if !simulating {
        simulating := true;
      }
    }

    /** `stopSimulation`: clears the interval if it is set. */
    method StopSimulation()
      modifies this`simulating
      ensures !simulating
      ensures events == old(events) && listeners == old(listeners)
    {
      if simulating {
        simulating := false;
      }
    }

    /** `addEvent`: the event goes in front, the oldest is dropped beyond the
        cap, and the listeners to call, in registration order, are returned;
        they are called after the list has been updated. */
    method AddEvent(e: ActivityEvent) returns (notified: seq<ListenerId>)
      requires Valid()
      modifies this
      ensures Valid()
      ensures events == AddedFront(old(events), e)
      ensures listeners == old(listeners) && simulating == old(simulating)
      ensures notified == listeners
    {
      events := [e] + events;
      if |events| > MAX_EVENTS {
        events := events[..MAX_EVENTS];
      }
      notified := listeners;
    }

    /** One firing of the simulation interval: a generated event stamped with
        the current time is added. */
    method SimulationTick(generated: ActivityEvent, now: int) returns (notified: seq<ListenerId>)
      requires Valid() && simulating
      modifies this
      ensures Valid()
      ensures events == AddedFront(old(events), generated.(created_at := now))
      ensures events[0].created_at == now
      ensures listeners == old(listeners) && simulating
      ensures notified == listeners
    {
      notified := AddEvent(generated.(created_at := now));
    }

    /** `getEvents(limit, cursor)`: a pure read of the stored list; the limit
        defaults to 20 and the cursor to none. */
    function GetEvents(limit: nat := DEFAULT_LIMIT, cursor: Option<string> := None): (p: FeedPage)
      reads this
      ensures p == GetPage(events, limit, cursor)
    {
      GetPage(events, limit, cursor)
    }

    /** `subscribe(listener)`: appends it. */
    method Subscribe(l: ListenerId)
      modifies this
      ensures listeners == old(listeners) + [l]
      ensures Occurrences(listeners, l) == Occurrences(old(listeners), l) + 1
      ensures events == old(events) && simulating == old(simulating)
    {
      AppendAddsOccurrence(listeners, l, l);
      listeners := listeners + [l];
    }

    /** The function `subscribe(l)` returns: removes every occurrence of `l`
        and keeps the other listeners in their order. */
    method Unsubscribe(l: ListenerId)
      modifies this
      ensures listeners == Without(old(listeners), l)
      ensures Occurrences(listeners, l) == 0
      ensures events == old(events) && simulating == old(simulating)
    {
      WithoutOccurrences(listeners, l, l);
      listeners := Without(listeners, l);
    }

    /** `getTotalCount`: never above the cap. */
    function GetTotalCount(): (n: nat)
      reads this
      requires Valid()
      ensures n <= MAX_EVENTS
      ensures n == |events|
    {
      |events|
    }
  }

  /** `generateFeed(count)`: the generated events newest first, with a random
      token as `next_cursor`. */
  function GenerateFeed(generated: seq<ActivityEvent>, token: string): (p: FeedPage)
    ensures SortedDesc(p.items, CreatedAt)
    ensures multiset(p.items) == multiset(generated)
    ensures p.next_cursor == Some("cursor_" + token)
  {
    FeedPage(SortDesc(generated, CreatedAt), Some("cursor_" + token))
  }

  /** What `generateTopItems` draws at random for one item. */
  datatype TopItemDraw = TopItemDraw(object_id: string, object_type: string, object_title: string, jitter: nat)

  /** `Math.floor(1000 / (i + 1)) + Math.floor(Math.random() * 50)`. */
  function BaseCount(i: nat, jitter: nat): (n: nat)
    ensures jitter <= n <= 1000 + jitter
    ensures i == 0 ==> n == 1000 + jitter
  {
    1000 / (i + 1) + jitter
  }

  /** The items in generation order, before sorting. */
  function DrawnItems(draws: seq<TopItemDraw>, from: nat): (r: seq<TopItem>)
    ensures |r| == |draws|
    ensures forall i :: 0 <= i < |draws| ==> r[i].count == BaseCount(from + i, draws[i].jitter)
    decreases |draws|
  {
    if draws == [] then []
    else
      var d := draws[0];
      [TopItem(d.object_id, d.object_type, d.object_title, BaseCount(from, d.jitter))] + DrawnItems(draws[1..], from + 1)
  }

  /** `generateTopItems(count)`: the drawn items ranked by count, highest first. */
  function GenerateTopItems(draws: seq<TopItemDraw>): (r: seq<TopItem>)
    ensures |r| == |draws|
    ensures SortedDesc(r, ItemCount)
    ensures multiset(r) == multiset(DrawnItems(draws, 0))
  {
    SortDesc(DrawnItems(draws, 0), ItemCount)
  }

  /** The first drawn item has base count 1000, so the top of the ranking
      counts at least 1000. */
  lemma TopItemAtLeastThousand(draws: seq<TopItemDraw>)
    requires draws != []
    ensures GenerateTopItems(draws)[0].count >= 1000
  {
    var drawn := DrawnItems(draws, 0);
    var r := GenerateTopItems(draws);
    assert drawn[0] in multiset(drawn);
    assert drawn[0] in multiset(r);
    var j :| 0 <= j < |r| && r[j] == drawn[0];
    assert ItemCount(r[0]) >= ItemCount(r[j]) || j == 0;
  }
}

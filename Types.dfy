/** The records of the activity-feed UI (src/types/events.ts) as Dafny values.

    Timestamps (`created_at`, `notified_at`) are ISO strings in the program;
    here they are integers (milliseconds since the epoch), so that ordering
    newest-first is an integer comparison. */
module Types {

  datatype Option<+T> = None | Some(value: T)

  /** JavaScript truthiness of an optional string: `null`, `undefined` and the
      empty string are all falsy. The store's `cursor ? … : 0` and the feed's
      `!cursor` both test a cursor this way. */
  predicate Truthy(s: Option<string>) {
    s.Some? && s.value != ""
  }

  datatype Verb = Like | Comment | Follow | Purchase | Share | Mention

  datatype ActivityEvent = ActivityEvent(
    event_id: string,
    actor_id: string,
    actor_name: string,
    actor_avatar: string,
    verb: Verb,
    object_type: string,
    object_id: string,
    object_title: Option<string>,
    target_user_ids: seq<string>,
    created_at: int)

  /** A notification is an event plus its read flag and delivery time. */
  datatype Notification = Notification(event: ActivityEvent, read: bool, notified_at: int)

  datatype SystemMetrics = SystemMetrics(
    events_per_second: int,
    active_connections: int,
    memory_usage_mb: int,
    cpu_percent: int,
    total_events: int,
    p95_latency_ms: int)

  /** A ranked object of the analytics panel; the per-verb split is left out. */
  datatype TopItem = TopItem(object_id: string, object_type: string, object_title: string, count: int)

  /** What `getEvents` and `generateFeed` return. */
  datatype FeedPage = FeedPage(items: seq<ActivityEvent>, next_cursor: Option<string>)

  /** The identity of a listener callback, compared the way `!==` compares functions. */
  type ListenerId = nat

  /** No two events of the list share an identifier. */
  predicate DistinctIds(s: seq<ActivityEvent>) {
    forall i, j :: 0 <= i < j < |s| ==> s[i].event_id != s[j].event_id
  }

  /** Every identifier is truthy, as every generated `evt_…` identifier is. */
  predicate NonEmptyIds(s: seq<ActivityEvent>) {
    forall i :: 0 <= i < |s| ==> s[i].event_id != ""
  }
}

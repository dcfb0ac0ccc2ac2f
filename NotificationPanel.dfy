/** The notification list of src/components/notifications/NotificationPanel.tsx:
    a newest-first list capped at 20, filled by a simulated push channel while
    the panel is open, with "mark all as read" and an unread badge. */
module Notifications {
  import opened Types

  /** The list keeps at most this many notifications. */
  const MAX_NOTIFICATIONS: nat := 20

  /** The panel starts with this many generated notifications. */
  const INITIAL_NOTIFICATIONS: nat := 8

  /** `[n, ...prev.slice(0, 19)]`. */
  function WithNew(n: Notification, prev: seq<Notification>): (r: seq<Notification>)
    ensures |r| == if |prev| < MAX_NOTIFICATIONS then |prev| + 1 else MAX_NOTIFICATIONS
    ensures r[0] == n
    ensures r[1..] == prev[..|r| - 1]
  {
    var kept := if |prev| <= MAX_NOTIFICATIONS - 1 then prev else prev[..MAX_NOTIFICATIONS - 1];
    [n] + kept
  }

  /** `prev.map(n => ({ ...n, read: true }))`. */
  function AllRead(s: seq<Notification>): (r: seq<Notification>)
    ensures |r| == |s|
    ensures forall i :: 0 <= i < |s| ==> r[i].read && r[i] == s[i].(read := true)
  {
    if s == [] then [] else [s[0].(read := true)] + AllRead(s[1..])
  }

  /** `notifications.filter(n => !n.read).length`. */
  function CountUnread(s: seq<Notification>): (c: nat)
    ensures c <= |s|
  {
    if s == [] then 0 else (if s[0].read then 0 else 1) + CountUnread(s[1..])
  }

  /** The unread count is zero exactly when every notification is read. */
  lemma {:induction false} NoUnreadIffAllRead(s: seq<Notification>)
    ensures CountUnread(s) == 0 <==> forall i :: 0 <= i < |s| ==> s[i].read
  {
    if s != [] {
      NoUnreadIffAllRead(s[1..]);
      assert forall i :: 1 <= i < |s| ==> s[i] == s[1..][i - 1];
    }
  }

  /** After "mark all as read" the badge shows nothing. */
  lemma {:induction false} AllReadClearsUnread(s: seq<Notification>)
    ensures CountUnread(AllRead(s)) == 0
  {
    if s != [] {
      AllReadClearsUnread(s[1..]);
      assert AllRead(s)[1..] == AllRead(s[1..]);
    }
  }

  /** A pushed (unread) notification adds one to the unread count of the
      kept older notifications. */
  lemma {:induction false} WithNewCountsOneMore(n: Notification, prev: seq<Notification>)
    requires !n.read
    ensures CountUnread(WithNew(n, prev)) == 1 + CountUnread(prev[..|WithNew(n, prev)| - 1])
  {
    var r := WithNew(n, prev);
    assert r == [n] + r[1..];
  }

  class NotificationPanel {
    var notifications: seq<Notification>
    /** The `isOpen` property. */
    var isOpen: bool

    ghost predicate Valid()
      reads this
    {
      |notifications| <= MAX_NOTIFICATIONS
    }

    /** The mount effect replaces the empty initial list by eight generated
        notifications. */
    constructor (open: bool, generated: seq<Notification>)
      requires |generated| == INITIAL_NOTIFICATIONS
      ensures Valid()
      ensures notifications == generated && isOpen == open
    {
      notifications := generated;
      isOpen := open;
    }

    /** The parent opens or closes the panel. */
    method SetOpen(open: bool)
      modifies this`isOpen
      ensures isOpen == open
    {
      isOpen := open;
    }

    /** One firing of the three-second interval, which exists only while the
        panel is open. `arrives` is the `Math.random() > 0.7` draw; the
        arriving notification is unread and stamped with the current time. */
    method Tick(arrives: bool, generated: Notification, now: int)
      requires Valid()
      modifies this`notifications
      ensures Valid()
      ensures notifications == if isOpen && arrives
        then WithNew(generated.(read := false, event := generated.event.(created_at := now)), old(notifications))
        else old(notifications)
      ensures isOpen && arrives ==> !notifications[0].read && notifications[0].event.created_at == now
    {
      if isOpen && arrives {
        var n := generated.(read := false, event := generated.event.(created_at := now));
        notifications := WithNew(n, notifications);
      }
    }

    /** `markAllRead`. */
    method MarkAllRead()
      requires Valid()
      modifies this`notifications
      ensures Valid()
      ensures notifications == AllRead(old(notifications))
      ensures UnreadCount() == 0
    {
      notifications := AllRead(notifications);
      AllReadClearsUnread(old(notifications));
    }

    /** The unread badge. */
    function UnreadCount(): (c: nat)
      reads this
      ensures c <= |notifications|
    {
      CountUnread(notifications)
    }
  }
}

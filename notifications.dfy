/** The notification list of the notification screen: a list of records
    and an unread counter that the screen keeps in step with the list. */
module Notifications {

  /** One notification. The source calls the category field `type`;
      `type` is a Dafny keyword, so it is `kind` here. */
  datatype Notification = Notification(id: int, kind: string, message: string, read: bool)

  /** Number of records whose `read` flag is false
      (`notifications.filter(n => !n.read).length`). */
  function CountUnread(s: seq<Notification>): (r: nat)
    ensures r <= |s|
    ensures r == 0 <==> forall i :: 0 <= i < |s| ==> s[i].read
    ensures r == |s| <==> forall i :: 0 <= i < |s| ==> !s[i].read
  {
    if s == [] then 0
    else (if s[0].read then 0 else 1) + CountUnread(s[1..])
  }

  /** The list after `markAsRead(id)`: every record whose id is `id`
      gets `read: true`, every other record is kept as it was. */
  function MarkRead(s: seq<Notification>, id: int): (r: seq<Notification>)
    ensures |r| == |s|
    ensures forall i :: 0 <= i < |s| ==>
      && r[i].id == s[i].id
      && r[i].kind == s[i].kind
      && r[i].message == s[i].message
      && r[i].read == (s[i].read || s[i].id == id)
  {
    if s == [] then []
    else [if s[0].id == id then s[0].(read := true) else s[0]] + MarkRead(s[1..], id)
  }

  /** True when `id` is the id of some record of `s`. */
  predicate HasId(s: seq<Notification>, id: int)
  {
    exists i :: 0 <= i < |s| && s[i].id == id
  }

  /** No two records share an id. */
  predicate DistinctIds(s: seq<Notification>)
  {
    forall i, j :: 0 <= i < j < |s| ==> s[i].id != s[j].id
  }

  /** The fixed list that the load step puts on screen. */
  function Fetched(): (r: seq<Notification>)
    ensures |r| == 3 && DistinctIds(r)
    ensures CountUnread(r) == 2
  {
    [ Notification(1, "product", "New product available!", false),
      Notification(2, "purchase", "Your order is on the way!", false),
      Notification(3, "influencer", "Influencer X has a new post!", true) ]
  }

  /** ASCII upper-casing of one character. */
  function ToUpper(c: char): char
  {
    if 'a' <= c <= 'z' then (c as int - 32) as char else c
  }

  /** The category label shown under each message: the first character
      upper-cased, the rest as it is; the empty string stays empty. */
  function TypeLabel(kind: string): (r: string)
    ensures |r| == |kind|
    ensures |kind| > 0 ==> r[0] == ToUpper(kind[0]) && r[1..] == kind[1..]
    ensures |kind| > 0 ==> !('a' <= r[0] <= 'z')
  {
    if kind == [] then [] else [ToUpper(kind[0])] + kind[1..]
  }

  /** Capitalising a label that is already capitalised changes nothing. */
  lemma TypeLabelIdempotent(kind: string)
    ensures TypeLabel(TypeLabel(kind)) == TypeLabel(kind)
  {
    if kind != [] {
      var l := TypeLabel(kind);
      assert l == [l[0]] + l[1..];
    }
  }

  /** Marking an id that no record carries leaves the list as it is. */
  lemma {:induction false} MarkReadAbsent(s: seq<Notification>, id: int)
    requires !HasId(s, id)
    ensures MarkRead(s, id) == s
  {
    if s != [] {
      assert !HasId(s[1..], id) by {
        forall i | 0 <= i < |s[1..]| ensures s[1..][i].id != id {
          assert s[1..][i] == s[i + 1];
        }
      }
      MarkReadAbsent(s[1..], id);
    }
  }

  /** Marking the same id twice gives the same list as marking it once. */
  lemma {:induction false} MarkReadIdempotent(s: seq<Notification>, id: int)
    ensures MarkRead(MarkRead(s, id), id) == MarkRead(s, id)
  {
    if s != [] {
      MarkReadIdempotent(s[1..], id);
    }
  }

  /** Marking never raises the unread count. */
  lemma {:induction false} MarkReadNeverIncreases(s: seq<Notification>, id: int)
    ensures CountUnread(MarkRead(s, id)) <= CountUnread(s)
  {
    if s != [] {
      MarkReadNeverIncreases(s[1..], id);
    }
  }

  /** With distinct ids, marking the record at index k lowers the unread
      count by one when that record was unread and by nothing otherwise. */
  lemma {:induction false} MarkReadCountDistinct(s: seq<Notification>, k: nat)
    requires DistinctIds(s) && k < |s|
    ensures CountUnread(MarkRead(s, s[k].id)) == CountUnread(s) - (if s[k].read then 0 else 1)
  {
    var id := s[k].id;
    var t := MarkRead(s, id);
    assert t == [t[0]] + MarkRead(s[1..], id);
    if k == 0 {
      assert !HasId(s[1..], id) by {
        forall i | 0 <= i < |s[1..]| ensures s[1..][i].id != id {
          assert s[1..][i] == s[i + 1];
        }
      }
      MarkReadAbsent(s[1..], id);
    } else {
      assert s[1..][k - 1] == s[k];
      assert DistinctIds(s[1..]) by {
        forall i, j | 0 <= i < j < |s[1..]| ensures s[1..][i].id != s[1..][j].id {
          assert s[1..][i] == s[i + 1] && s[1..][j] == s[j + 1];
        }
      }
      MarkReadCountDistinct(s[1..], k - 1);
    }
  }

  /** Marking an id that is not present leaves the unread count unchanged. */
  lemma MarkReadCountAbsent(s: seq<Notification>, id: int)
    requires !HasId(s, id)
    ensures CountUnread(MarkRead(s, id)) == CountUnread(s)
  {
    MarkReadAbsent(s, id);
  }

  /** The screen's state: the list and the counter shown in the badge. */
  class NotificationScreen {
    var notifications: seq<Notification>
    var unreadCount: int

    /** The counter agrees with the list. */
    ghost predicate Valid()
      reads this
    {
      unreadCount == CountUnread(notifications)
    }

    /** Both pieces of state start empty. */
    constructor ()
      ensures Valid()
      ensures notifications == [] && unreadCount == 0
    {
      notifications := [];
      unreadCount := 0;
    }

    /** `updateUnreadCount(list)`: sets the counter to the number of
        unread records of `list`; the list itself is not touched, so the
        invariant holds when `list` is the stored list. */
    method UpdateUnreadCount(list: seq<Notification>)
      modifies this
      ensures unreadCount == CountUnread(list)
      ensures notifications == old(notifications)
      ensures list == notifications ==> Valid()
    {
      unreadCount := CountUnread(list);
    }

    /** The load step: replaces whatever was there by the fixed list and
        recounts; two unread records result. */
    method Load()
      modifies this
      ensures Valid()
      ensures notifications == Fetched()
      ensures unreadCount == 2
    {
      var fetched := Fetched();
      notifications := fetched;
      UpdateUnreadCount(fetched);
    }

    /** `markAsRead(id)`: marks every record with that id read, then
        recounts. */
    method MarkAsRead(id: int)
      modifies this
      ensures Valid()
      ensures notifications == MarkRead(old(notifications), id)
      ensures old(Valid()) ==> unreadCount <= old(unreadCount)
      ensures !HasId(old(notifications), id) ==> notifications == old(notifications)
      ensures old(Valid()) && !HasId(old(notifications), id) ==> unreadCount == old(unreadCount)
      ensures old(Valid()) && DistinctIds(old(notifications)) ==>
        forall k :: 0 <= k < |old(notifications)| && old(notifications)[k].id == id ==>
          unreadCount == old(unreadCount) - (if old(notifications)[k].read then 0 else 1)
    {
      var updated := MarkRead(notifications, id);
      MarkReadNeverIncreases(notifications, id);
      if !HasId(notifications, id) {
        MarkReadAbsent(notifications, id);
      }
      forall k | 0 <= k < |notifications| && DistinctIds(notifications) && notifications[k].id == id
        ensures CountUnread(updated) == CountUnread(notifications) - (if notifications[k].read then 0 else 1)
      {
        MarkReadCountDistinct(notifications, k);
      }
      notifications := updated;
      UpdateUnreadCount(updated);
    }

    /** `clearNotifications`: empties the list and zeroes the counter. */
    method ClearNotifications()
      modifies this
      ensures Valid()
      ensures notifications == [] && unreadCount == 0
    {
      notifications := [];
      unreadCount := 0;
    }
  }

  /** A client that walks through loading, marking and clearing and checks
      what each step leaves behind, from the method contracts alone. */
  method ScreenWalkthrough()
  {
    var screen := new NotificationScreen();
    screen.Load();
    var loaded := screen.notifications;
    assert screen.unreadCount == 2;

    screen.MarkAsRead(999);
    assert !HasId(loaded, 999);
    assert screen.notifications == loaded && screen.unreadCount == 2;

    screen.MarkAsRead(1);
    assert loaded[0].id == 1 && !loaded[0].read;
    assert screen.notifications[0].read && screen.unreadCount == 1;

    var once := screen.notifications;
    screen.MarkAsRead(1);
    assert screen.notifications == once && screen.unreadCount == 1;

    screen.Load();
    assert screen.notifications == loaded && screen.unreadCount == 2;

    screen.ClearNotifications();
    assert screen.notifications == [] && screen.unreadCount == 0;
  }
}

/** The notification panel: marking one or all notifications read, deleting
    one, the unread badge, and what a click does. */
module Notifications {
  import opened Basics

  datatype Kind = MessageKind | OrderKind | ReviewKind | SystemKind

  datatype Notification = Notification(
    id: string,
    kind: Kind,
    title: string,
    content: string,
    link: Option<string>,
    isRead: bool,
    createdAt: string)

  predicate Unread(n: Notification) { !n.isRead }

  function Read(n: Notification): Notification
  {
    n.(isRead := true)
  }

  /** `handleMarkAsRead`. */
  function MarkAsRead(ns: seq<Notification>, id: string): (r: seq<Notification>)
    ensures |r| == |ns|
    ensures forall i :: 0 <= i < |ns| ==> r[i] == (if ns[i].id == id then Read(ns[i]) else ns[i])
  {
    if |ns| == 0 then []
    else [if ns[0].id == id then Read(ns[0]) else ns[0]] + MarkAsRead(ns[1..], id)
  }

  /** `handleMarkAllAsRead`. */
  function MarkAllAsRead(ns: seq<Notification>): (r: seq<Notification>)
    ensures |r| == |ns|
    ensures forall i :: 0 <= i < |ns| ==> r[i] == Read(ns[i])
  {
    seq(|ns|, i requires 0 <= i < |ns| => Read(ns[i]))
  }

  /** `handleDelete`. */
  function Delete(ns: seq<Notification>, id: string): (r: seq<Notification>)
    ensures forall n :: n in r ==> n in ns && n.id != id
    ensures forall n :: n in ns && n.id != id ==> n in r
  {
    Filter(ns, (n: Notification) => n.id != id)
  }

  /** `unreadCount`: zero exactly when every notification is read. */
  function UnreadCount(ns: seq<Notification>): (r: nat)
    ensures r <= |ns|
    ensures r == 0 <==> forall i :: 0 <= i < |ns| ==> ns[i].isRead
  {
    var unread := Filter(ns, Unread);
    assert |unread| > 0 ==> unread[0] in unread;
    assert forall i :: 0 <= i < |ns| ==> ns[i] in ns;
    |unread|
  }

  /** Marking one notification read again changes nothing more. */
  lemma MarkAsReadIdempotent(ns: seq<Notification>, id: string)
    ensures MarkAsRead(MarkAsRead(ns, id), id) == MarkAsRead(ns, id)
  {
  }

  /** Marking read removes from the unread count exactly the unread entries
      with that id. */
  lemma {:induction false} MarkAsReadCount(ns: seq<Notification>, id: string)
    ensures UnreadCount(MarkAsRead(ns, id)) ==
      UnreadCount(ns) - CountWhere(ns, (n: Notification) => n.id == id && Unread(n))
  {
    FilterLength(ns, Unread);
    FilterLength(MarkAsRead(ns, id), Unread);
    if |ns| > 0 {
      var r := MarkAsRead(ns, id);
      assert r[1..] == MarkAsRead(ns[1..], id);
      MarkAsReadCount(ns[1..], id);
      FilterLength(ns[1..], Unread);
      FilterLength(r[1..], Unread);
    }
  }

  /** After marking all read nothing is unread. */
  lemma MarkAllClearsCount(ns: seq<Notification>)
    ensures UnreadCount(MarkAllAsRead(ns)) == 0
  {
    var r := MarkAllAsRead(ns);
    FilterLength(r, Unread);
    assert forall x :: x in r ==> !Unread(x);
  }

  /** The count is the number of unread entries. */
  lemma UnreadCountCounts(ns: seq<Notification>)
    ensures UnreadCount(ns) == CountWhere(ns, Unread)
    ensures UnreadCount(ns) == 0 <==> forall i :: 0 <= i < |ns| ==> ns[i].isRead
  {
    FilterLength(ns, Unread);
    if UnreadCount(ns) == 0 {
      forall i | 0 <= i < |ns| ensures ns[i].isRead {
        assert ns[i] in ns;
      }
    }
  }

  /** Deleting removes every entry with the id and keeps the others in
      order. */
  lemma DeleteRemovesOnlyThat(ns: seq<Notification>, id: string)
    ensures forall n :: n in Delete(ns, id) ==> n.id != id
    ensures forall n :: n in ns && n.id != id ==> n in Delete(ns, id)
    ensures IsSubsequence(Delete(ns, id), ns)
  {
    FilterIsSubsequence(ns, (n: Notification) => n.id != id);
  }

  /** What a click does to the list and where it navigates. */
  datatype Click = Click(list: seq<Notification>, navigateTo: Option<string>)

  /** `handleNotificationClick`: an unread notification is marked read, and
      a non-empty link is followed. */
  function OnClick(ns: seq<Notification>, n: Notification): (r: Click)
    ensures r.navigateTo.Some? <==> n.link.Some? && |n.link.value| > 0
    ensures r.navigateTo.Some? ==> r.navigateTo == n.link
    ensures n.isRead ==> r.list == ns
  {
    var list := if !n.isRead then MarkAsRead(ns, n.id) else ns;
    var target := if n.link.Some? && |n.link.value| > 0 then n.link else None;
    Click(list, target)
  }

  predicate UniqueIds(ns: seq<Notification>)
  {
    forall i, j :: 0 <= i < j < |ns| && ns[i].id == ns[j].id ==> i == j
  }

  /** Clicking a listed notification leaves the list as marking it read
      would: skipping the call for an entry already read loses nothing. */
  lemma ClickMarksRead(ns: seq<Notification>, i: int)
    requires UniqueIds(ns) && 0 <= i < |ns|
    ensures OnClick(ns, ns[i]).list == MarkAsRead(ns, ns[i].id)
  {
    if ns[i].isRead {
      var r := MarkAsRead(ns, ns[i].id);
      assert forall j :: 0 <= j < |ns| ==> r[j] == ns[j];
    }
  }
}

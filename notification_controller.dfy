/** The notification handlers: listing (which marks what it lists as read),
    deleting all of one's notifications, and deleting one. */
module NotificationController {
  import opened Common
  import opened Sequences
  import opened ObjectIds
  import opened Models

  /** The filter `{to: me, from: {$ne: me}}`: addressed to me and not sent by me. */
  predicate InInbox(n: Notification, me: Oid)
  {
    n.to == me && n.from != me
  }

  function Inbox(ns: seq<Notification>, me: Oid): (r: seq<Notification>)
    ensures forall n :: n in r ==> n in ns && InInbox(n, me)
    ensures forall n :: n in ns && InInbox(n, me) ==> n in r && multiset(r)[n] == multiset(ns)[n]
  {
    Filter(ns, n => InInbox(n, me))
  }

  /** What `GET /notifications` returns: exactly the notifications addressed
      to me by others, newest first. */
  function ListNotifications(ns: seq<Notification>, me: Oid): (r: seq<Notification>)
    ensures forall n :: n in r ==> n in ns && n.to == me && n.from != me
    ensures forall n :: n in ns && n.to == me && n.from != me ==> n in r
    ensures NewestFirstOrder(r, NotificationStamp)
    ensures multiset(r) == multiset(Inbox(ns, me))
  {
    var inbox := Inbox(ns, me);
    var r := NewestFirst(inbox, NotificationStamp);
    assert forall n :: n in r <==> n in inbox by {
      forall n ensures n in r <==> n in inbox {
        assert n in r <==> n in multiset(r);
        assert n in inbox <==> n in multiset(inbox);
      }
    }
    r
  }

  function SetRead(n: Notification): Notification
  {
    n.(read := true)
  }

  /** `updateMany({to: me, from: {$ne: me}}, {read: true})`. */
  function MarkInboxRead(ns: seq<Notification>, me: Oid): (r: seq<Notification>)
    ensures |r| == |ns|
    ensures forall k :: 0 <= k < |ns| && InInbox(ns[k], me) ==> r[k] == ns[k].(read := true)
    ensures forall k :: 0 <= k < |ns| && !InInbox(ns[k], me) ==> r[k] == ns[k]
  {
    MapAll(ns, n => if InInbox(n, me) then SetRead(n) else n)
  }

  /** The inbox of the marked store is the old inbox with every entry read. */
  lemma {:induction false} InboxOfMarked(ns: seq<Notification>, me: Oid)
    ensures Inbox(MarkInboxRead(ns, me), me) == MapAll(Inbox(ns, me), SetRead)
  {
    if ns != [] {
      var marked := MarkInboxRead(ns, me);
      assert marked[1..] == MarkInboxRead(ns[1..], me);
      InboxOfMarked(ns[1..], me);
      assert Inbox(marked, me) == (if InInbox(ns[0], me) then [SetRead(ns[0])] else []) + Inbox(marked[1..], me);
      assert Inbox(ns, me) == (if InInbox(ns[0], me) then [ns[0]] else []) + Inbox(ns[1..], me);
      if InInbox(ns[0], me) {
        assert MapAll(Inbox(ns, me), SetRead)[1..] == MapAll(Inbox(ns[1..], me), SetRead);
      }
    }
  }

  /** Listing twice in a row: the second call returns the same notifications
      in the same order, now all read, and marking again changes nothing. */
  lemma ListTwice(ns: seq<Notification>, me: Oid)
    ensures ListNotifications(MarkInboxRead(ns, me), me) == MapAll(ListNotifications(ns, me), SetRead)
    ensures forall n :: n in ListNotifications(MarkInboxRead(ns, me), me) ==> n.read
    ensures MarkInboxRead(MarkInboxRead(ns, me), me) == MarkInboxRead(ns, me)
  {
    InboxOfMarked(ns, me);
    NewestFirstCommutesWithMap(Inbox(ns, me), NotificationStamp, SetRead);
    var second := ListNotifications(MarkInboxRead(ns, me), me);
    forall n | n in second ensures n.read {
      var k :| 0 <= k < |second| && second[k] == n;
    }
  }

  lemma {:induction false} MarkKeepsIds(ns: seq<Notification>, me: Oid)
    requires UniqueKeys(ns, NotificationId)
    ensures UniqueKeys(MarkInboxRead(ns, me), NotificationId)
  {
    var r := MarkInboxRead(ns, me);
    forall a, b | 0 <= a < b < |r| ensures NotificationId(r[a]) != NotificationId(r[b]) {
      assert NotificationId(r[a]) == NotificationId(ns[a]) && NotificationId(r[b]) == NotificationId(ns[b]);
    }
  }

  /** `GET /notifications`: the list is taken before the marking, so it shows
      each notification with the read flag it had. */
  method GetNotifications(db: Store, me: Oid) returns (r: seq<Notification>)
    requires db.Valid()
    modifies db
    ensures db.Valid()
    ensures db.users == old(db.users) && db.posts == old(db.posts) && db.comments == old(db.comments)
    ensures r == ListNotifications(old(db.notifications), me)
    ensures db.notifications == MarkInboxRead(old(db.notifications), me)
  {
    r := ListNotifications(db.notifications, me);
    MarkKeepsIds(db.notifications, me);
    db.notifications := MarkInboxRead(db.notifications, me);
  }

  /** The filter `{to: {$ne: me}}` of what `deleteMany({to: me})` leaves. */
  function ElsewhereAddressed(me: Oid): Notification -> bool
  {
    (n: Notification) => n.to != me
  }

  /** `deleteMany({to: me})`: every notification addressed to me goes,
      self-sent ones included; each other one stays, as often as before. */
  function NotAddressedTo(ns: seq<Notification>, me: Oid): (r: seq<Notification>)
    ensures forall n :: n in r ==> n in ns && n.to != me
    ensures forall n :: n in ns && n.to != me ==> n in r && multiset(r)[n] == multiset(ns)[n]
  {
    Filter(ns, ElsewhereAddressed(me))
  }

  /** Deleting one's notifications keeps the rest in their order: what remains
      of two stretches of the collection is what remains of each, in turn. */
  lemma NotAddressedToKeepsOrder(a: seq<Notification>, b: seq<Notification>, me: Oid)
    ensures NotAddressedTo(a + b, me) == NotAddressedTo(a, me) + NotAddressedTo(b, me)
  {
    FilterAppend(a, b, ElsewhereAddressed(me));
  }

  /** `DELETE /notifications`. */
  method DeleteNotifications(db: Store, me: Oid)
    requires db.Valid()
    modifies db
    ensures db.Valid()
    ensures db.users == old(db.users) && db.posts == old(db.posts) && db.comments == old(db.comments)
    ensures db.notifications == NotAddressedTo(old(db.notifications), me)
  {
    FilterKeepsUniqueKeys(db.notifications, ElsewhereAddressed(me), NotificationId);
    db.notifications := NotAddressedTo(db.notifications, me);
  }

  /** `DELETE /notifications/:id`: 404 for a malformed or unknown id, 400 when
      it is addressed to someone else; otherwise exactly that notification goes. */
  method DeleteSingleNotification(db: Store, me: Oid, raw: string) returns (r: Outcome)
    requires db.Valid()
    modifies db
    ensures db.Valid()
    ensures db.users == old(db.users) && db.posts == old(db.posts) && db.comments == old(db.comments)
    ensures Locate(old(db.notifications), NotificationId, raw).None? ==>
      r == Failed(NotFound) && db.notifications == old(db.notifications)
    ensures Locate(old(db.notifications), NotificationId, raw).Some? ==>
      var k := Locate(old(db.notifications), NotificationId, raw).value;
      && (old(db.notifications)[k].to != me ==>
            r == Failed(BadRequest(NotOwner)) && db.notifications == old(db.notifications))
      && (old(db.notifications)[k].to == me ==>
            && r == Done
            && db.notifications == RemoveAt(old(db.notifications), k)
            && forall n :: n in db.notifications ==> n.id != old(db.notifications)[k].id)
  {
    var k := Locate(db.notifications, NotificationId, raw);
    if k.None? {
      return Failed(NotFound);
    }
    if db.notifications[k.value].to != me {
      return Failed(BadRequest(NotOwner));
    }
    RemoveAtKeys(db.notifications, NotificationId, k.value);
    db.notifications := RemoveAt(db.notifications, k.value);
    r := Done;
  }
}

/**
  The Firestore triggers of the SocialApe backend (functions/index.js).
  Each trigger is a method that receives the database handle `db` the source
  takes from its admin module, plus the event's snapshot; what it leaves in
  the database is stated through a function on database values.
 */
module Triggers {
  import opened Wrappers
  import opened Schema
  import opened Firestore

  datatype TriggerError = ReferenceError(name: string) | BatchFailed(error: BatchError)

  /**
    How an invocation ended: normally, or with an error that its `.catch`
    swallowed (after logging it, except in `onUserImageChange`, whose handler
    `error => console.error` logs nothing).
   */
  datatype Outcome = Completed | Caught(error: TriggerError)

  // ---------------------------------------------------------------- notifications

  /** The guard of the like trigger: the scream exists and the sender does not own it. */
  predicate NotifiesOwner(screams: map<string, Scream>, screamId: string, sender: string) {
    screamId in screams && sender != screams[screamId].userHandle
  }

  /**
    The database after a notification for the owner of scream `screamId` is set
    under document id `id`, when the guard holds; otherwise the database as it was.
   */
  function NotifyOwner(d: Db, id: string, screamId: string, sender: string, kind: NotificationType, now: string): (r: Db)
    ensures r.screams == d.screams && r.comments == d.comments && r.likes == d.likes && r.users == d.users
    ensures !NotifiesOwner(d.screams, screamId, sender) ==> r == d
    ensures NotifiesOwner(d.screams, screamId, sender) ==>
      && r.notifications.Keys == d.notifications.Keys + {id}
      && r.notifications[id].recipient == d.screams[screamId].userHandle
      && r.notifications[id].sender == sender
      && !r.notifications[id].read
      && r.notifications[id].screamId == screamId
      && r.notifications[id].kind == kind
      && r.notifications[id].createdAt == now
    ensures forall k | k in d.notifications && k != id :: k in r.notifications && r.notifications[k] == d.notifications[k]
  {
    if NotifiesOwner(d.screams, screamId, sender) then
      var n := Notification(d.screams[screamId].userHandle, sender, false, screamId, kind, now);
      d.(notifications := d.notifications[id := n])
    else
      d
  }

  /** Setting the same notification again changes nothing: the trigger is safe to retry. */
  lemma NotifyOwnerIdempotent(d: Db, id: string, screamId: string, sender: string, kind: NotificationType, now: string)
    ensures var once := NotifyOwner(d, id, screamId, sender, kind, now);
      NotifyOwner(once, id, screamId, sender, kind, now) == once
  {
  }

  /** `createNotificationOnLike`: notifies the scream's owner under the like's id. */
  method CreateNotificationOnLike(db: Store, likeId: string, like: Like, now: string)
    modifies db
    ensures db.Snapshot() == NotifyOwner(old(db.Snapshot()), likeId, like.screamId, like.userHandle, LikeNotification, now)
  {
    if like.screamId in db.screams && like.userHandle != db.screams[like.screamId].userHandle {
      var owner := db.screams[like.screamId].userHandle;
      db.notifications := db.notifications[likeId := Notification(owner, like.userHandle, false, like.screamId, LikeNotification, now)];
    }
  }

  /** The database without notification `id`; deleting a missing document is no error. */
  function NotificationDeleted(d: Db, id: string): (r: Db)
    ensures id !in r.notifications
    ensures r.notifications.Keys == d.notifications.Keys - {id}
    ensures forall k | k in r.notifications :: r.notifications[k] == d.notifications[k]
    ensures r.screams == d.screams && r.comments == d.comments && r.likes == d.likes && r.users == d.users
    ensures id !in d.notifications ==> r == d
  {
    d.(notifications := d.notifications - {id})
  }

  /** Deleting twice is deleting once. */
  lemma NotificationDeletedIdempotent(d: Db, id: string)
    ensures NotificationDeleted(NotificationDeleted(d, id), id) == NotificationDeleted(d, id)
  {
  }

  /** `deleteNotificationOnUnlike`: deletes the notification that has the like's id. */
  method DeleteNotificationOnUnlike(db: Store, likeId: string)
    modifies db
    ensures db.Snapshot() == NotificationDeleted(old(db.Snapshot()), likeId)
  {
    db.notifications := db.notifications - {likeId};
  }

  /** Scenario: bob likes alice's scream p1, then unlikes it. */
  lemma LikeUnlikeScenario()
    ensures
      var d := Db(map["p1" := Scream("alice", "hello", "t0", "", 0, 0)], map[], map["l1" := Like("p1", "bob")], map[], map[]);
      var liked := NotifyOwner(d, "l1", "p1", "bob", LikeNotification, "t1");
      && liked.notifications == map["l1" := Notification("alice", "bob", false, "p1", LikeNotification, "t1")]
      && NotificationDeleted(liked, "l1").notifications == map[]
  {
    var d := Db(map["p1" := Scream("alice", "hello", "t0", "", 0, 0)], map[], map["l1" := Like("p1", "bob")], map[], map[]);
    assert NotifiesOwner(d.screams, "p1", "bob");
  }

  /**
    `createNotificationOnComment` as written: line 120 reads `likeSnapshot`,
    which is not defined in this function. When the scream is missing the
    condition stops before it; when the scream exists the ReferenceError is
    caught and logged. Either way nothing is written: the method has no
    `modifies` clause.
   */
  method CreateNotificationOnComment(db: Store, commentId: string, comment: Comment, now: string) returns (outcome: Outcome)
    ensures comment.screamId !in db.screams ==> outcome == Completed
    ensures comment.screamId in db.screams ==> outcome == Caught(ReferenceError("likeSnapshot"))
  {
    if comment.screamId in db.screams {
      outcome := Caught(ReferenceError("likeSnapshot"));
    } else {
      outcome := Completed;
    }
  }

  /** `createNotificationOnComment` as evidently intended: the like trigger's rule, with the comment's id and author. */
  method CreateNotificationOnCommentIntended(db: Store, commentId: string, comment: Comment, now: string)
    modifies db
    ensures db.Snapshot() == NotifyOwner(old(db.Snapshot()), commentId, comment.screamId, comment.userHandle, CommentNotification, now)
  {
    if comment.screamId in db.screams && comment.userHandle != db.screams[comment.screamId].userHandle {
      var owner := db.screams[comment.screamId].userHandle;
      db.notifications := db.notifications[commentId := Notification(owner, comment.userHandle, false, comment.screamId, CommentNotification, now)];
    }
  }

  /** Whenever a comment should notify, the intended trigger writes a notification the written one never does. */
  lemma CommentNotificationLost(d: Db, commentId: string, comment: Comment, now: string)
    requires NotifiesOwner(d.screams, comment.screamId, comment.userHandle)
    requires commentId !in d.notifications
    ensures NotifyOwner(d, commentId, comment.screamId, comment.userHandle, CommentNotification, now) != d
  {
    var r := NotifyOwner(d, commentId, comment.screamId, comment.userHandle, CommentNotification, now);
    assert commentId in r.notifications;
  }

  // ---------------------------------------------------------------- image propagation

  /** The ids of the screams posted by `handle`. */
  function OwnedBy(screams: map<string, Scream>, handle: string): set<string> {
    set k | k in screams && screams[k].userHandle == handle
  }

  /** The database after every scream of `handle` has taken `url` as its `userImage`. */
  function ImagePropagated(d: Db, handle: string, url: string): (r: Db)
    ensures r.comments == d.comments && r.likes == d.likes && r.notifications == d.notifications && r.users == d.users
    ensures r.screams.Keys == d.screams.Keys
    ensures forall k | k in d.screams && d.screams[k].userHandle == handle :: r.screams[k] == d.screams[k].(userImage := url)
    ensures forall k | k in d.screams && d.screams[k].userHandle != handle :: r.screams[k] == d.screams[k]
    ensures OwnedBy(d.screams, handle) == {} ==> r == d
  {
    d.(screams := WithImage(d.screams, OwnedBy(d.screams, handle), url))
  }

  /** Propagating the same image twice is propagating it once. */
  lemma ImagePropagatedIdempotent(d: Db, handle: string, url: string)
    ensures ImagePropagated(ImagePropagated(d, handle, url), handle, url) == ImagePropagated(d, handle, url)
  {
    var once := ImagePropagated(d, handle, url);
    assert OwnedBy(once.screams, handle) == OwnedBy(d.screams, handle);
  }

  /**
    `onUserImageChange` as written: `batch.commit()` sits inside the `forEach`
    callback. The first matching scream is updated and committed; the next
    `batch.update` throws because the batch is already committed, which ends
    the loop and is swallowed by the `.catch`. `first` is the scream that was
    updated, the first one in the order the query returned.
   */
  method OnUserImageChange(db: Store, before: User, after: User) returns (outcome: Outcome, ghost first: Option<string>)
    modifies db
    ensures var owned := OwnedBy(old(db.screams), before.handle);
      && (first.Some? <==> before.imageURL != after.imageURL && owned != {})
      && (first == None ==> db.Snapshot() == old(db.Snapshot()) && outcome == Completed)
      && (first.Some? ==>
        && first.value in owned
        && db.Snapshot() == old(db.Snapshot()).(screams := WithImage(old(db.screams), {first.value}, after.imageURL))
        && outcome == if owned - {first.value} != {} then Caught(BatchFailed(AlreadyCommitted)) else Completed)
  {
    outcome, first := Completed, None;
    if before.imageURL != after.imageURL {
      var batch := new WriteBatch(db);
      var ids := Where(db.screams, (s: Scream) => s.userHandle == before.handle);
      ghost var d0 := db.Snapshot();
      assert ToSet(ids) == OwnedBy(d0.screams, before.handle);
      var i := 0;
      while i < |ids|
        invariant 0 <= i <= 1 && i <= |ids| && batch.store == db
        invariant outcome == Completed
        invariant i == 0 ==> !batch.committed && batch.writes == [] && db.Snapshot() == d0 && first == None
        invariant i == 1 ==> batch.committed && first == Some(ids[0])
        invariant i == 1 ==> db.Snapshot() == d0.(screams := WithImage(d0.screams, {ids[0]}, after.imageURL))
      {
        var error := batch.Update(ids[i], after.imageURL);
        if error.Some? {
          outcome := Caught(BatchFailed(error.value));
          break;
        }
        assert ApplyAll(d0, batch.writes) == Some(d0.(screams := WithImage(d0.screams, {ids[0]}, after.imageURL)));
        error := batch.Commit();
        first := Some(ids[0]);
        i := i + 1;
      }
      if |ids| >= 2 {
        assert ids[1] in OwnedBy(d0.screams, before.handle) - {ids[0]};
      } else if |ids| == 1 {
        assert OwnedBy(d0.screams, before.handle) == {ids[0]};
      }
    }
  }

  /** `onUserImageChange` as evidently intended: every matching update queued, then one commit. */
  method OnUserImageChangeIntended(db: Store, before: User, after: User)
    modifies db
    ensures db.Snapshot() == if before.imageURL == after.imageURL then old(db.Snapshot())
                             else ImagePropagated(old(db.Snapshot()), before.handle, after.imageURL)
  {
    if before.imageURL != after.imageURL {
      var batch := new WriteBatch(db);
      var ids := Where(db.screams, (s: Scream) => s.userHandle == before.handle);
      ghost var d0 := db.Snapshot();
      var i := 0;
      while i < |ids|
        invariant 0 <= i <= |ids| && batch.store == db
        invariant !batch.committed && batch.writes == ImageUpdates(ids[..i], after.imageURL)
        invariant db.Snapshot() == d0
      {
        var _ := batch.Update(ids[i], after.imageURL);
        assert ids[..i + 1] == ids[..i] + [ids[i]];
        i := i + 1;
      }
      assert ids[..i] == ids;
      ApplyImageUpdates(d0, ids, after.imageURL);
      assert ToSet(ids) == OwnedBy(d0.screams, before.handle);
      var _ := batch.Commit();
    }
  }

  /** With two or more screams to update, the written trigger leaves one of them with the old image. */
  lemma FirstCommitMissesOtherScreams(d: Db, handle: string, url: string, first: string, other: string)
    requires first in OwnedBy(d.screams, handle) && other in OwnedBy(d.screams, handle) && other != first
    requires d.screams[other].userImage != url
    ensures d.(screams := WithImage(d.screams, {first}, url)) != ImagePropagated(d, handle, url)
  {
    assert WithImage(d.screams, {first}, url)[other].userImage != url;
  }

  // ---------------------------------------------------------------- scream deletion

  /** The comments, likes and notifications that carry `screamId`. */
  function Dependents(d: Db, screamId: string): set<DocRef> {
    (set k | k in d.comments && d.comments[k].screamId == screamId :: DocRef(Comments, k))
    + (set k | k in d.likes && d.likes[k].screamId == screamId :: DocRef(Likes, k))
    + (set k | k in d.notifications && d.notifications[k].screamId == screamId :: DocRef(Notifications, k))
  }

  /** The database after every document that refers to scream `screamId` has been deleted. */
  function ScreamDeleted(d: Db, screamId: string): (r: Db)
    ensures r.screams == d.screams && r.users == d.users
    ensures forall k :: k in r.comments <==> k in d.comments && d.comments[k].screamId != screamId
    ensures forall k :: k in r.likes <==> k in d.likes && d.likes[k].screamId != screamId
    ensures forall k :: k in r.notifications <==> k in d.notifications && d.notifications[k].screamId != screamId
    ensures forall k | k in r.comments :: r.comments[k] == d.comments[k]
    ensures forall k | k in r.likes :: r.likes[k] == d.likes[k]
    ensures forall k | k in r.notifications :: r.notifications[k] == d.notifications[k]
  {
    DependentIds(d, screamId);
    RemoveAll(d, Dependents(d, screamId))
  }

  /** Per collection, the dependents of a scream are the documents that carry its id. */
  lemma DependentIds(d: Db, screamId: string)
    ensures IdsIn(Dependents(d, screamId), Screams) == {} && IdsIn(Dependents(d, screamId), Users) == {}
    ensures IdsIn(Dependents(d, screamId), Comments) == set k | k in d.comments && d.comments[k].screamId == screamId
    ensures IdsIn(Dependents(d, screamId), Likes) == set k | k in d.likes && d.likes[k].screamId == screamId
    ensures IdsIn(Dependents(d, screamId), Notifications) == set k | k in d.notifications && d.notifications[k].screamId == screamId
  {
    var deps := Dependents(d, screamId);
    forall k | k in d.comments && d.comments[k].screamId == screamId ensures k in IdsIn(deps, Comments) {
      assert DocRef(Comments, k) in deps;
    }
    forall k | k in d.likes && d.likes[k].screamId == screamId ensures k in IdsIn(deps, Likes) {
      assert DocRef(Likes, k) in deps;
    }
    forall k | k in d.notifications && d.notifications[k].screamId == screamId ensures k in IdsIn(deps, Notifications) {
      assert DocRef(Notifications, k) in deps;
    }
  }

  /** Deleting the dependents again finds none. */
  lemma ScreamDeletedIdempotent(d: Db, screamId: string)
    ensures ScreamDeleted(ScreamDeleted(d, screamId), screamId) == ScreamDeleted(d, screamId)
  {
  }

  /** References to the documents `ids` of collection `c`. */
  function Refs(c: Collection, ids: seq<string>): (refs: seq<DocRef>)
    ensures |refs| == |ids| && forall i | 0 <= i < |ids| :: refs[i] == DocRef(c, ids[i])
  {
    seq(|ids|, i requires 0 <= i < |ids| => DocRef(c, ids[i]))
  }

  lemma RefsToSet(c: Collection, ids: seq<string>)
    ensures ToSet(Refs(c, ids)) == set k | k in ids :: DocRef(c, k)
  {
    var refs := Refs(c, ids);
    forall k | k in ids ensures DocRef(c, k) in ToSet(refs) {
      var i :| 0 <= i < |ids| && ids[i] == k;
      assert refs[i] == DocRef(c, k);
    }
  }

  /** The documents the three queries return are exactly the scream's dependents. */
  lemma QueriedAreDependents(d: Db, screamId: string, commentIds: seq<string>, likeIds: seq<string>, notificationIds: seq<string>)
    requires forall k :: k in commentIds <==> k in d.comments && d.comments[k].screamId == screamId
    requires forall k :: k in likeIds <==> k in d.likes && d.likes[k].screamId == screamId
    requires forall k :: k in notificationIds <==> k in d.notifications && d.notifications[k].screamId == screamId
    ensures ToSet(Refs(Comments, commentIds) + Refs(Likes, likeIds) + Refs(Notifications, notificationIds)) == Dependents(d, screamId)
  {
    var a, b, c := Refs(Comments, commentIds), Refs(Likes, likeIds), Refs(Notifications, notificationIds);
    RefsToSet(Comments, commentIds);
    RefsToSet(Likes, likeIds);
    RefsToSet(Notifications, notificationIds);
    assert ToSet(a + b + c) == ToSet(a) + ToSet(b) + ToSet(c);
  }

  /** A batch deleting every document the three queries return leaves the database `ScreamDeleted` describes. */
  lemma QueriedDeletesAreScreamDeleted(d: Db, screamId: string, commentIds: seq<string>, likeIds: seq<string>, notificationIds: seq<string>)
    requires forall k :: k in commentIds <==> k in d.comments && d.comments[k].screamId == screamId
    requires forall k :: k in likeIds <==> k in d.likes && d.likes[k].screamId == screamId
    requires forall k :: k in notificationIds <==> k in d.notifications && d.notifications[k].screamId == screamId
    ensures ApplyAll(d, Deletes(Refs(Comments, commentIds) + Refs(Likes, likeIds) + Refs(Notifications, notificationIds)))
      == Some(ScreamDeleted(d, screamId))
  {
    QueriedAreDependents(d, screamId, commentIds, likeIds, notificationIds);
    ApplyDeletes(d, Refs(Comments, commentIds) + Refs(Likes, likeIds) + Refs(Notifications, notificationIds));
  }

  /**
    `onScreamDelete`: the three queries, then one batch that deletes every
    document they returned. The queries run one after the other here.
   */
  method OnScreamDelete(db: Store, screamId: string)
    modifies db
    ensures db.Snapshot() == ScreamDeleted(old(db.Snapshot()), screamId)
  {
    var batch := new WriteBatch(db);
    var commentIds := Where(db.comments, (c: Comment) => c.screamId == screamId);
    var likeIds := Where(db.likes, (l: Like) => l.screamId == screamId);
    var notificationIds := Where(db.notifications, (n: Notification) => n.screamId == screamId);
    var docs := Refs(Comments, commentIds) + Refs(Likes, likeIds) + Refs(Notifications, notificationIds);
    ghost var d0 := db.Snapshot();
    var i := 0;
    while i < |docs|
      invariant 0 <= i <= |docs| && batch.store == db
      invariant !batch.committed && batch.writes == Deletes(docs[..i])
      invariant db.Snapshot() == d0
    {
      var _ := batch.Delete(docs[i]);
      assert docs[..i + 1] == docs[..i] + [docs[i]];
      i := i + 1;
    }
    assert docs[..i] == docs;
    QueriedDeletesAreScreamDeleted(d0, screamId, commentIds, likeIds, notificationIds);
    var _ := batch.Commit();
  }

  /** Scenario: deleting scream p1 removes its comment c1, like l1 and notification n1, and nothing else. */
  lemma ScreamDeleteScenario()
    ensures
      var d := Db(map[], map["c1" := Comment("p1", "bob", "nice", "t1"), "c2" := Comment("p2", "bob", "ok", "t1")],
                  map["l1" := Like("p1", "bob")],
                  map["n1" := Notification("alice", "bob", false, "p1", LikeNotification, "t1")], map[]);
      var r := ScreamDeleted(d, "p1");
      r.comments == map["c2" := Comment("p2", "bob", "ok", "t1")] && r.likes == map[] && r.notifications == map[]
  {
  }
}

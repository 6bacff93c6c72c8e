/**
  An in-memory model of the Firestore database the triggers work on: the
  five collections as maps from document id to document, equality queries
  on one field, and write batches that commit atomically.
 */
module Firestore {
  import opened Wrappers
  import opened Schema

  datatype Collection = Screams | Comments | Likes | Notifications | Users

  /** A document reference: a collection and a document id. */
  datatype DocRef = DocRef(collection: Collection, id: string)

  /** The whole database at one moment. */
  datatype Db = Db(
    screams: map<string, Scream>,
    comments: map<string, Comment>,
    likes: map<string, Like>,
    notifications: map<string, Notification>,
    users: map<string, User>)

  /** The ids of the documents of collection `c` among `refs`. */
  function IdsIn(refs: set<DocRef>, c: Collection): set<string> {
    set r | r in refs && r.collection == c :: r.id
  }

  /**
    The database without the documents `refs`; deleting a missing document is
    no error, and every document that stays keeps its contents.
   */
  function RemoveAll(d: Db, refs: set<DocRef>): (r: Db)
    ensures forall c, id :: DocRef(c, id) in refs ==> !Holds(r, DocRef(c, id))
    ensures forall c, id :: DocRef(c, id) !in refs ==> (Holds(r, DocRef(c, id)) <==> Holds(d, DocRef(c, id)))
    ensures forall k | k in r.screams :: k in d.screams && r.screams[k] == d.screams[k]
    ensures forall k | k in r.comments :: k in d.comments && r.comments[k] == d.comments[k]
    ensures forall k | k in r.likes :: k in d.likes && r.likes[k] == d.likes[k]
    ensures forall k | k in r.notifications :: k in d.notifications && r.notifications[k] == d.notifications[k]
    ensures forall k | k in r.users :: k in d.users && r.users[k] == d.users[k]
  {
    Db(d.screams - IdsIn(refs, Screams),
       d.comments - IdsIn(refs, Comments),
       d.likes - IdsIn(refs, Likes),
       d.notifications - IdsIn(refs, Notifications),
       d.users - IdsIn(refs, Users))
  }

  /** Whether the database holds a document at `ref`. */
  predicate Holds(d: Db, ref: DocRef) {
    match ref.collection
    case Screams => ref.id in d.screams
    case Comments => ref.id in d.comments
    case Likes => ref.id in d.likes
    case Notifications => ref.id in d.notifications
    case Users => ref.id in d.users
  }

  /** Two deletions in a row delete the union. */
  lemma RemoveAllTwice(d: Db, a: set<DocRef>, b: set<DocRef>)
    ensures RemoveAll(RemoveAll(d, a), b) == RemoveAll(d, a + b)
  {
    forall c ensures IdsIn(a + b, c) == IdsIn(a, c) + IdsIn(b, c) {
    }
    MinusTwice(d.screams, IdsIn(a, Screams), IdsIn(b, Screams));
    MinusTwice(d.comments, IdsIn(a, Comments), IdsIn(b, Comments));
    MinusTwice(d.likes, IdsIn(a, Likes), IdsIn(b, Likes));
    MinusTwice(d.notifications, IdsIn(a, Notifications), IdsIn(b, Notifications));
    MinusTwice(d.users, IdsIn(a, Users), IdsIn(b, Users));
  }

  lemma MinusTwice<V>(m: map<string, V>, x: set<string>, y: set<string>)
    ensures (m - x) - y == m - (x + y)
  {
  }

  /** The screams whose ids are in `ids` get `userImage := url`; every other scream and field stays. */
  function WithImage(m: map<string, Scream>, ids: set<string>, url: string): (r: map<string, Scream>)
    ensures r.Keys == m.Keys
    ensures forall k | k in m && k in ids :: r[k] == m[k].(userImage := url)
    ensures forall k | k in m && k !in ids :: r[k] == m[k]
  {
    map k | k in m :: if k in ids then m[k].(userImage := url) else m[k]
  }

  /** One write queued in a batch: `batch.update(scream, {userImage})` or `batch.delete(ref)`. */
  datatype Write = SetUserImage(screamId: string, url: string) | Delete(ref: DocRef)

  /** Applies one write; an update of a document that does not exist fails (Firestore NOT_FOUND). */
  function Apply(d: Db, w: Write): Option<Db> {
    match w
    case SetUserImage(id, url) =>
      if id in d.screams then Some(d.(screams := WithImage(d.screams, {id}, url))) else None
    case Delete(ref) => Some(RemoveAll(d, {ref}))
  }

  /** Applies a batch in order, all or nothing: `None` when any write fails. */
  function ApplyAll(d: Db, ws: seq<Write>): Option<Db>
    decreases ws
  {
    if ws == [] then Some(d)
    else match Apply(d, ws[0])
      case None => None
      case Some(d') => ApplyAll(d', ws[1..])
  }

  /** The deletes of `refs`, in order. */
  function Deletes(refs: seq<DocRef>): (ws: seq<Write>)
    ensures |ws| == |refs| && forall i | 0 <= i < |refs| :: ws[i] == Delete(refs[i])
  {
    seq(|refs|, i requires 0 <= i < |refs| => Delete(refs[i]))
  }

  /** The image updates of the screams `ids`, in order. */
  function ImageUpdates(ids: seq<string>, url: string): (ws: seq<Write>)
    ensures |ws| == |ids| && forall i | 0 <= i < |ids| :: ws[i] == SetUserImage(ids[i], url)
  {
    seq(|ids|, i requires 0 <= i < |ids| => SetUserImage(ids[i], url))
  }

  /** A batch of deletes never fails and deletes exactly the documents it names. */
  lemma {:induction false} ApplyDeletes(d: Db, refs: seq<DocRef>)
    ensures ApplyAll(d, Deletes(refs)) == Some(RemoveAll(d, ToSet(refs)))
    decreases refs
  {
    if refs == [] {
      assert ToSet(refs) == {};
      assert RemoveAll(d, {}) == d;
    } else {
      var d' := RemoveAll(d, {refs[0]});
      assert Deletes(refs)[1..] == Deletes(refs[1..]);
      ApplyDeletes(d', refs[1..]);
      RemoveAllTwice(d, {refs[0]}, ToSet(refs[1..]));
      assert ToSet(refs) == {refs[0]} + ToSet(refs[1..]);
    }
  }

  /** A batch of image updates of existing screams commits and updates exactly those screams. */
  lemma {:induction false} ApplyImageUpdates(d: Db, ids: seq<string>, url: string)
    requires forall i | 0 <= i < |ids| :: ids[i] in d.screams
    ensures ApplyAll(d, ImageUpdates(ids, url)) == Some(d.(screams := WithImage(d.screams, ToSet(ids), url)))
    decreases ids
  {
    if ids == [] {
      assert WithImage(d.screams, ToSet(ids), url) == d.screams;
    } else {
      var d' := d.(screams := WithImage(d.screams, {ids[0]}, url));
      assert Apply(d, SetUserImage(ids[0], url)) == Some(d');
      assert ImageUpdates(ids, url)[1..] == ImageUpdates(ids[1..], url);
      ApplyImageUpdates(d', ids[1..], url);
      WithImageTwice(d.screams, {ids[0]}, ToSet(ids[1..]), url);
      assert ToSet(ids) == {ids[0]} + ToSet(ids[1..]);
    }
  }

  /** Two image updates in a row update the union. */
  lemma WithImageTwice(m: map<string, Scream>, a: set<string>, b: set<string>, url: string)
    ensures WithImage(WithImage(m, a, url), b, url) == WithImage(m, a + b, url)
  {
  }

  /** The elements of a sequence. */
  function ToSet<T>(s: seq<T>): set<T> {
    set x | x in s
  }

  predicate Distinct<T(==)>(s: seq<T>) {
    forall i, j | 0 <= i < j < |s| :: s[i] != s[j]
  }

  /**
    `collection.where(field, "==", value).get()`: the ids of the documents of `m`
    that satisfy `matches`, each once. Firestore returns them in document-id
    order; this model promises no order.
   */
  method Where<V>(m: map<string, V>, matches: V -> bool) returns (ids: seq<string>)
    ensures forall id :: id in ids <==> id in m && matches(m[id])
    ensures Distinct(ids)
  {
    ids := [];
    var rest := m.Keys;
    while rest != {}
      invariant rest <= m.Keys
      invariant forall id :: id in ids <==> id in m && id !in rest && matches(m[id])
      invariant Distinct(ids)
      decreases rest
    {
      var id :| id in rest;
      if matches(m[id]) {
        ids := ids + [id];
      }
      rest := rest - {id};
    }
  }

  /** The database: one map per collection. */
  class Store {
    var screams: map<string, Scream>
    var comments: map<string, Comment>
    var likes: map<string, Like>
    var notifications: map<string, Notification>
    var users: map<string, User>

    constructor (init: Db)
      ensures Snapshot() == init
    {
      screams, comments, likes, notifications, users
        := init.screams, init.comments, init.likes, init.notifications, init.users;
    }

    function Snapshot(): Db
      reads this
    {
      Db(screams, comments, likes, notifications, users)
    }

    /** Replaces the whole content, as a committed batch does. */
    method Load(d: Db)
      modifies this
      ensures Snapshot() == d
    {
      screams, comments, likes, notifications, users
        := d.screams, d.comments, d.likes, d.notifications, d.users;
    }
  }

  datatype BatchError = AlreadyCommitted | NotFound

  /** `db.batch()`: writes queued and then committed together. */
  class WriteBatch {
    const store: Store
    var writes: seq<Write>
    var committed: bool

    constructor (store: Store)
      ensures this.store == store && writes == [] && !committed
    {
      this.store := store;
      writes, committed := [], false;
    }

    /** `batch.update(ref, {userImage: url})`; throws once the batch has been committed. */
    method Update(screamId: string, url: string) returns (error: Option<BatchError>)
      modifies this
      ensures committed == old(committed)
      ensures error == if old(committed) then Some(AlreadyCommitted) else None
      ensures writes == if old(committed) then old(writes) else old(writes) + [SetUserImage(screamId, url)]
    {
      if committed {
        error := Some(AlreadyCommitted);
      } else {
        writes, error := writes + [SetUserImage(screamId, url)], None;
      }
    }

    /** `batch.delete(ref)`; throws once the batch has been committed. */
    method Delete(ref: DocRef) returns (error: Option<BatchError>)
      modifies this
      ensures committed == old(committed)
      ensures error == if old(committed) then Some(AlreadyCommitted) else None
      ensures writes == if old(committed) then old(writes) else old(writes) + [Write.Delete(ref)]
    {
      if committed {
        error := Some(AlreadyCommitted);
      } else {
        writes, error := writes + [Write.Delete(ref)], None;
      }
    }

    /**
      `batch.commit()`: applies every queued write or none of them. The batch
      counts as committed from the call on, even when the commit fails.
     */
    method Commit() returns (error: Option<BatchError>)
      modifies this, store
      ensures committed && writes == old(writes)
      ensures old(committed) ==> error == Some(AlreadyCommitted) && store.Snapshot() == old(store.Snapshot())
      ensures !old(committed) ==>
        match ApplyAll(old(store.Snapshot()), writes)
        case None => error == Some(NotFound) && store.Snapshot() == old(store.Snapshot())
        case Some(d) => error == None && store.Snapshot() == d
    {
      if committed {
        error := Some(AlreadyCommitted);
      } else {
        committed := true;
        var result := ApplyAll(store.Snapshot(), writes);
        if result.Some? {
          store.Load(result.value);
          error := None;
        } else {
          error := Some(NotFound);
        }
      }
    }
  }
}

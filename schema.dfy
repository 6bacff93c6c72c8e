/**
  The documents of the SocialApe Firestore database, one datatype per
  collection, with the field names the backend reads and writes.
  Document ids are not fields: they are the keys of the collections.
 */
module Schema {

  /** A document of `screams` (a post). */
  datatype Scream = Scream(
    userHandle: string,
    body: string,
    createdAt: string,
    userImage: string,
    likeCount: int,
    commentCount: int)

  /** A document of `comments`. */
  datatype Comment = Comment(screamId: string, userHandle: string, body: string, createdAt: string)

  /** A document of `likes`. */
  datatype Like = Like(screamId: string, userHandle: string)

  /** The `type` field of a notification: "like" or "comment". */
  datatype NotificationType = LikeNotification | CommentNotification

  /** A document of `notifications`. */
  datatype Notification = Notification(
    recipient: string,
    sender: string,
    read: bool,
    screamId: string,
    kind: NotificationType,
    createdAt: string)

  /** A document of `users`, stored under the user's handle. */
  datatype User = User(userId: string, handle: string, email: string, createdAt: string, imageURL: string)
}

# SocialApe backend core and the todo-list component, in Dafny

This project models four pieces of the Learning-React repository:

- the **Firestore triggers** of the SocialApe Cloud Functions backend (`functions/index.js`):
  - the like trigger notifies a scream's owner;
  - the unlike trigger deletes that notification;
  - the comment trigger;
  - the profile-image trigger copies a user's new image onto their screams;
  - the scream-delete trigger removes every comment, like and notification of a deleted scream in one batch;
- the **sign-up and login validators** (`functions/util/validators.js`);
- the **bearer-token middleware** (`functions/util/firebaseAuthMiddleware.js`);
- the **state updates of the todo-list React component** (`react_traversy/src/App.js`).

Modules:

- `Wrappers`: `Option`.
- `JsString`: the JavaScript string operations the code relies on.
  - `trim`, with ECMAScript's whitespace set.
  - `split` on a one-character separator.
  - `startsWith`.
  - `length`, counted in UTF-16 code units.
- `Schema`: one datatype per Firestore collection.
- `Firestore`: an in-memory database.
  - A `Store` class with one map per collection.
  - `where` queries.
  - A `WriteBatch` class. Its writes are applied all or nothing. `update` and `commit` fail once it is committed. An update of a missing document fails the whole commit.
- `Triggers`: each trigger is a method on the `db` handle it is given. What the trigger leaves in the store is stated as a function on database values. Idempotence and scenario lemmas sit beside those functions.
- `Validators`:
  - `isEmpty`.
  - `isEmail`, with its regular expression written out as a recognizer.
  - `validateSignupData` and `validateLoginData`, which fill an `errors` map field by field.
- `AuthMiddleware`:
  - the header test;
  - `split(" ")[1]`;
  - an abstract verifier;
  - the first-match handle lookup;
  - the `next`/403 decision;
  - a `Request` class whose `user` field the middleware sets.
- `TodoApp`:
  - a `Todo` class whose `completed` flag `toggleComplete` flips in place;
  - the `App` class with its `todos`;
  - specification functions on todo values (`ToggleAll` and `RemoveId`) that the methods are proved against.

Inputs from outside become parameters:

- the current time, as `now`;
- the token verifier, as `verify`;
- the HTTP responses and the users collection, in query order.

Where the code and the described design of the system differ, the model follows the code:

- No shown code maintains `likeCount` or `commentCount`. The triggers do not touch them.
- The comment trigger as written never notifies anyone (see Findings).
- The image trigger as written commits after the first update. It is therefore neither atomic nor complete (see Findings).
- `validateSignupData` rejects a password only when it is shorter than 6 characters. A 6-character password passes, although the message reads "Must exceed 6 characters".
- `isEmail` is the exact pattern of `validators.js:9`. It is not an abstract predicate; "no '@', no email" is proved about it (`Validators.NoAtSignNoEmail`).

## Model

| member | source | states |
|---|---|---|
| JsString.TrimStartDropsLeadingWhitespace | socialape-functions/functions/util/validators.js:3 | `trimStart` yields a suffix of the input. Everything it drops is whitespace, and what it keeps does not start with whitespace. |
| JsString.TrimEndDropsTrailingWhitespace | socialape-functions/functions/util/validators.js:3 | `trimEnd` yields a prefix of the input. Everything it drops is whitespace, and what it keeps does not end with whitespace. |
| JsString.Trim | socialape-functions/functions/util/validators.js:3 | `trim` never lengthens a string, and what it returns neither starts nor ends with whitespace. |
| JsString.StartsWith | socialape-functions/functions/util/firebaseAuthMiddleware.js:7 | `startsWith(p)` holds exactly when `p` fits in the string and agrees with it character by character. |
| JsString.TrimEmptyIffBlank | socialape-functions/functions/util/validators.js:3 | `s.trim() === ""` exactly when every character of `s` is whitespace. |
| JsString.Utf16Length | socialape-functions/functions/util/validators.js:29 | `length` counts UTF-16 code units: at least the number of code points and at most twice it. |
| JsString.Split | socialape-functions/functions/util/firebaseAuthMiddleware.js:9 | `split` always yields at least one piece. |
| JsString.JoinSplit | socialape-functions/functions/util/firebaseAuthMiddleware.js:9 | The pieces of a split hold no separator, and joining them with the separator restores the string. |
| JsString.SplitJoin | socialape-functions/functions/util/firebaseAuthMiddleware.js:9 | Splitting the join of separator-free parts gives back exactly those parts. |
| JsString.SplitSepFree | socialape-functions/functions/util/firebaseAuthMiddleware.js:9 | A string without the separator splits into itself alone. |
| JsString.SplitAfterPiece | socialape-functions/functions/util/firebaseAuthMiddleware.js:9 | `p + sep + q` with `p` separator-free splits into `p` followed by the pieces of `q`. |
| JsString.SplitFirstPiece | socialape-functions/functions/util/firebaseAuthMiddleware.js:9 | The first piece is the longest separator-free prefix. It is followed by the end of the string or by a separator. |
| JsString.SplitAtLeastTwo | socialape-functions/functions/util/firebaseAuthMiddleware.js:9 | A string that holds the separator splits into two pieces or more. |
| Validators.IsEmpty | socialape-functions/functions/util/validators.js:2-5 | `isEmpty(s)` holds exactly when every character of `s` is whitespace. |
| Validators.LastIndexOf | socialape-functions/functions/util/validators.js:9 | The index of the last occurrence of a character, or -1 when it does not occur. |
| Validators.NoAtSignNoEmail | socialape-functions/functions/util/validators.js:8-12 | A string without '@' never matches the email pattern. |
| Validators.DomainHasNoAtSign | socialape-functions/functions/util/validators.js:9 | Neither alternative of the domain part, a bracketed dotted quad or a host name, contains '@'. |
| Validators.EmailAtAnyCut | socialape-functions/functions/util/validators.js:9 | A cut at any '@' that gives a valid local part and a valid domain makes the whole string match. The recognizer's cut at the last '@' loses no match. |
| Validators.LettersAreDotAtom | socialape-functions/functions/util/validators.js:9 | A non-empty run of letters is an unquoted local part. |
| Validators.LettersAreHostName | socialape-functions/functions/util/validators.js:9 | `host.tld`, with a non-empty letter host and a letter tld of two or more, matches the host-name alternative. |
| Validators.IsEmail | socialape-functions/functions/util/validators.js:8-12 | An accepted address is a local part, an '@' and a domain. Together with `EmailAtAnyCut`, a string is accepted exactly when some cut at an '@' splits it that way. |
| Validators.SimpleAddressIsEmail | socialape-functions/functions/util/validators.js:8-12 | Every `name@host.tld` of letters, with a tld of two letters or more, is accepted. One example is the sample address `goodman@thismail.com`. |
| Validators.ValidateSignupData | socialape-functions/functions/util/validators.js:14-45 | `email` is filed exactly when the email is blank ("Must not be empty") or else malformed ("Must be a valid email address"). `password` is filed exactly when the password is blank or else shorter than 6 UTF-16 units ("Must exceed 6 characters"). `confirmPassword` is filed exactly when the two passwords differ. `handle` is filed exactly when the handle is blank. No other key appears. `valid` holds exactly when no key is present, that is, when every check passes. |
| Validators.ValidateLoginData | socialape-functions/functions/util/validators.js:47-58 | Only blankness is checked. `email` and `password` are filed exactly when blank, always with "Must not be empty". No other key appears. `valid` holds exactly when neither is blank. |
| Firestore.RemoveAll | socialape-functions/functions/index.js:206-210 | After deleting a set of documents, none of them exists, every other document still exists, and every document that stays keeps its contents. |
| Firestore.RemoveAllTwice | socialape-functions/functions/index.js:206-208 | Two deletions in a row delete the union. |
| Firestore.WithImage | socialape-functions/functions/index.js:158-160 | The listed screams get the new `userImage`. No scream appears or disappears, and every other field and scream is kept. |
| Firestore.WithImageTwice | socialape-functions/functions/index.js:158-160 | Two image updates with the same URL amount to one update of the union. |
| Firestore.Deletes | socialape-functions/functions/index.js:206-208 | One delete per reference, in order. |
| Firestore.ImageUpdates | socialape-functions/functions/index.js:156-160 | One `userImage` update per scream id, in order. |
| Firestore.ApplyDeletes | socialape-functions/functions/index.js:206-210 | A batch of deletes never fails. Committing it deletes exactly the referenced documents. |
| Firestore.ApplyImageUpdates | socialape-functions/functions/index.js:156-162 | A batch of image updates of existing screams commits, and updates exactly those screams. |
| Firestore.Where | socialape-functions/functions/index.js:150-153 | An equality query returns each matching document id exactly once, and nothing else. |
| Firestore.WriteBatch.Update | socialape-functions/functions/index.js:158-160 | `update` queues a write, or fails with "already committed" and queues nothing. |
| Firestore.WriteBatch.Delete | socialape-functions/functions/index.js:207 | `delete` queues a write, or fails with "already committed" and queues nothing. |
| Firestore.WriteBatch.Commit | socialape-functions/functions/index.js:161 | `commit` applies all queued writes or none. It fails if already committed, and fails with NOT_FOUND, changing nothing, when an update targets a missing document. Afterwards the batch counts as committed. |
| Triggers.NotifyOwner | socialape-functions/functions/index.js:76-89 | A notification is written exactly when the scream exists and the sender is not its owner. Its id is the like's id. Its recipient is the owner, its sender the liker, `read` is false, and it carries the scream id, the type and `now`. Otherwise the database is unchanged, and other collections and notifications are always kept. |
| Triggers.NotifyOwnerIdempotent | socialape-functions/functions/index.js:82 | Running the notification step twice leaves the same database as running it once. |
| Triggers.CreateNotificationOnLike | socialape-functions/functions/index.js:66-93 | The like trigger leaves the store as `NotifyOwner` describes, with type "like". |
| Triggers.NotificationDeleted | socialape-functions/functions/index.js:99-104 | After the unlike, no notification with the like's id exists. Every other document is unchanged, and nothing changes when the notification was already absent. |
| Triggers.NotificationDeletedIdempotent | socialape-functions/functions/index.js:101-103 | Deleting the notification twice is deleting it once. |
| Triggers.DeleteNotificationOnUnlike | socialape-functions/functions/index.js:95-105 | The unlike trigger leaves the store as `NotificationDeleted` describes. |
| Triggers.LikeUnlikeScenario | socialape-functions/functions/index.js:66-105 | Bob likes Alice's scream p1: notification l1 (recipient alice, sender bob, unread) appears. Unliking removes it. |
| Triggers.CreateNotificationOnComment | socialape-functions/functions/index.js:107-136 | The comment trigger as written never changes the store. It completes when the scream is missing. Otherwise it ends in the caught ReferenceError for `likeSnapshot`. |
| Triggers.CreateNotificationOnCommentIntended | socialape-functions/functions/index.js:118-131 | The corrected comment trigger leaves the store as `NotifyOwner` describes, with the comment's id and author and type "comment". |
| Triggers.CommentNotificationLost | socialape-functions/functions/index.js:118-131 | Whenever a comment should notify the scream owner, the corrected trigger writes a notification that the written one never writes. |
| Triggers.ImagePropagated | socialape-functions/functions/index.js:150-162 | Exactly the screams of the old handle get the new `userImage`. Nothing else changes, and with no such scream nothing changes at all. |
| Triggers.ImagePropagatedIdempotent | socialape-functions/functions/index.js:156-162 | Propagating the same image twice is propagating it once. |
| Triggers.OnUserImageChange | socialape-functions/functions/index.js:138-166 | With an unchanged image, or with no screams of that handle, nothing is written. Otherwise exactly one scream of that handle, the first the query returned, gets the image. When more screams match, the trigger then fails with "already committed", and the error is swallowed. |
| Triggers.OnUserImageChangeIntended | socialape-functions/functions/index.js:146-165 | The corrected image trigger updates every scream of the handle in one committed batch, and writes nothing when the image is unchanged. |
| Triggers.FirstCommitMissesOtherScreams | socialape-functions/functions/index.js:156-162 | With two screams to update, the written trigger leaves the store different from the full propagation. |
| Triggers.ScreamDeleted | socialape-functions/functions/index.js:175-210 | After the cascade, a comment, like or notification remains exactly when its `screamId` is a different one. Remaining documents are unchanged, and screams and users are untouched. |
| Triggers.DependentIds | socialape-functions/functions/index.js:180-193 | Per collection, the dependents of a scream are the documents carrying its id. Screams and users have none. |
| Triggers.ScreamDeletedIdempotent | socialape-functions/functions/index.js:206-210 | Running the cascade again removes nothing more. |
| Triggers.Refs | socialape-functions/functions/index.js:199-203 | The references of the returned documents of one collection, in order. |
| Triggers.RefsToSet | socialape-functions/functions/index.js:199-203 | The references cover exactly the returned ids of that collection. |
| Triggers.QueriedAreDependents | socialape-functions/functions/index.js:196-203 | The concatenated results of the three queries are exactly the scream's dependents. |
| Triggers.QueriedDeletesAreScreamDeleted | socialape-functions/functions/index.js:196-210 | A batch deleting every document the three queries return leaves exactly the database `ScreamDeleted` describes. |
| Triggers.OnScreamDelete | socialape-functions/functions/index.js:168-213 | The delete trigger leaves the store as `ScreamDeleted` describes, through one committed batch. |
| Triggers.ScreamDeleteScenario | socialape-functions/functions/index.js:168-213 | Deleting p1 removes its comment, like and notification, and keeps the comment on p2. |
| AuthMiddleware.BearerHeaderSplits | socialape-functions/functions/util/firebaseAuthMiddleware.js:5-9 | A header that passes the prefix test always has a second space-separated piece. |
| AuthMiddleware.HasBearer | socialape-functions/functions/util/firebaseAuthMiddleware.js:5-8 | The header test holds exactly when a header is present and starts with "Bearer ". The separate truthiness test adds nothing, because the empty string never has that prefix. |
| AuthMiddleware.BearerToken | socialape-functions/functions/util/firebaseAuthMiddleware.js:9 | `split(" ")[1]` on a bearer header is defined and holds no space. |
| AuthMiddleware.BearerTokenIsFirstWord | socialape-functions/functions/util/firebaseAuthMiddleware.js:9 | The token is the longest space-free prefix of what follows "Bearer ". |
| AuthMiddleware.BearerTokenOfOneWord | socialape-functions/functions/util/firebaseAuthMiddleware.js:9 | A space-free rest is the whole token. |
| AuthMiddleware.BearerTokenStopsAtSpace | socialape-functions/functions/util/firebaseAuthMiddleware.js:9 | Everything from the next space on is dropped. |
| AuthMiddleware.BearerTokenExamples | socialape-functions/functions/util/firebaseAuthMiddleware.js:9 | "Bearer abc" gives "abc", "Bearer a b" gives "a", and "Bearer " gives "". |
| AuthMiddleware.PrefixIsExact | socialape-functions/functions/util/firebaseAuthMiddleware.js:5-8 | "bearer x", "Bearerx", the empty header and a missing header all fail the prefix test. |
| AuthMiddleware.FirstMatch | socialape-functions/functions/util/firebaseAuthMiddleware.js:24-32 | The lookup finds nothing exactly when no user document has the uid. Otherwise it yields the first document, in query order, that has it. |
| AuthMiddleware.Decide | socialape-functions/functions/util/firebaseAuthMiddleware.js:3-39 | Every rejection is a 403, and the response is `Unauthorized` exactly when the header lacks the bearer prefix, in which case `request.user` is not set. A token the verifier rejects answers `VerificationFailed` and leaves `request.user` unset. A token it accepts sets `request.user` to exactly the verifier's decoded token; the middleware then either calls `next` with a handle recorded, or answers `NoUserDocument` without one. When `next` is called, `request.user.handle` is the handle of the first user document with the decoded uid. |
| AuthMiddleware.NoBearerNoVerification | socialape-functions/functions/util/firebaseAuthMiddleware.js:5-13 | Without a bearer header the verifier's answer does not matter. |
| AuthMiddleware.NextIffAuthenticated | socialape-functions/functions/util/firebaseAuthMiddleware.js:16-34 | `next` is called exactly when there is a bearer token, the verifier accepts it, and some user document has the decoded uid. Otherwise the answer is a 403 and `next` is never called. |
| AuthMiddleware.Authenticate | socialape-functions/functions/util/firebaseAuthMiddleware.js:3-39 | The middleware ends as `Decide` says. `request.user` becomes the decoded token the verifier returned, plus the handle once it is found, and it is left untouched when there is no bearer header or verification fails. |
| TodoApp.ToggleAll | react_traversy/src/App.js:28-38 | After `toggleComplete`, the length, order, ids and titles are the same. `completed` is negated exactly on the todos with that id. |
| TodoApp.ToggleTwice | react_traversy/src/App.js:32 | Toggling the same id twice restores every flag. |
| TodoApp.ToggleAbsent | react_traversy/src/App.js:30-36 | Toggling an id no todo has changes nothing. |
| TodoApp.RemoveId | react_traversy/src/App.js:44 | After `delTodo(id)`, a todo is in the list exactly when it was there before and its id differs from `id`. |
| TodoApp.RemoveIdAppend | react_traversy/src/App.js:44 | The filter keeps the relative order: it distributes over concatenation. |
| TodoApp.RemoveAbsent | react_traversy/src/App.js:44 | Deleting an id no todo has leaves the list unchanged. |
| TodoApp.RemoveIdIdempotent | react_traversy/src/App.js:44 | Deleting the same id twice is deleting it once. |
| TodoApp.KeptObjects | react_traversy/src/App.js:44 | The filtered list holds only former todo objects. |
| TodoApp.KeptObjectsItems | react_traversy/src/App.js:44 | Filtering the objects and then reading them is filtering their values. |
| TodoApp.KeptObjectsDistinct | react_traversy/src/App.js:44 | Filtering never makes one object appear twice. |
| TodoApp.App.constructor | react_traversy/src/App.js:16-18 | The component starts with no todos. |
| TodoApp.App.ComponentDidMount | react_traversy/src/App.js:21-24 | On mount, the list is replaced wholesale by fresh objects holding the fetched items. |
| TodoApp.App.ToggleComplete | react_traversy/src/App.js:28-38 | The same objects stay in the same order, and their values become `ToggleAll` of the old values. |
| TodoApp.App.DelTodo | react_traversy/src/App.js:42-45 | The list becomes `RemoveId` of the old list. |
| TodoApp.App.AddTodoItem | react_traversy/src/App.js:49-55 | The request sent is `{ title, completed: false }`. The server's answer is appended as the last todo, and the earlier todos are unchanged. |

## Findings

| source | as written | input that shows it | evidently intended | confidence | as-written member | corrected member |
|---|---|---|---|---|---|---|
| socialape-functions/functions/index.js:156-162 | `return batch.commit()` sits inside the `forEach` callback. The first scream is committed, and the next `batch.update` throws on the committed batch. | A user with two screams changes their image: only the first scream gets the new image (`FirstCommitMissesOtherScreams`). | Queue every update, then commit once. | not executed | Triggers.OnUserImageChange | Triggers.OnUserImageChangeIntended |
| socialape-functions/functions/index.js:120 | The condition reads `likeSnapshot`, which does not exist in the comment trigger. On an existing scream, the ReferenceError is caught, so no comment ever notifies (`CommentNotificationLost`). | Bob comments on Alice's existing scream: no notification is written. | `commentSnapshot.data().userHandle`, the like trigger's rule applied to comments. | not executed | Triggers.CreateNotificationOnComment | Triggers.CreateNotificationOnCommentIntended |

## Left out

- Firestore I/O failures, the network, trigger registration, regions and retries are not modelled. A `get`, `set` or `delete` always succeeds, and the only batch failures are "already committed" and NOT_FOUND.
- `console.log` and `console.error` are dropped. An error that a trigger's `.catch` handles is returned as an `Outcome` and otherwise swallowed. Most handlers log it first, but the image trigger's `.catch(error => console.error)` (index.js:164) only names the function and logs nothing.
- `new Date().toISOString()` is the parameter `now`.
- `Promise.all` at index.js:196 is not modelled as concurrent: the three queries run one after another. Their results do not depend on each other.
- The Express route table and the HTTP handlers are left out. So is the `likeCount`/`commentCount` maintenance, which no shown code performs.
- Firestore.Where does not promise Firestore's document-id result order. The image trigger as written is proved for whichever scream comes first.
- AuthMiddleware.FirstMatch takes the users collection as a sequence in query order. It is not taken as the map of user documents.
- AuthMiddleware.Decide leaves out what happens if `next()` itself throws.
- The body of a rejected verification is an abstract `VerificationFailed`, not Firebase's error object.
- Fields that are not strings are left out. A missing `email` or `password` would make `trim` throw, and a request without a `headers` object would throw on reading `authorization`. A missing `authorization` header is modelled: it is falsy and answers 403. The model takes every field as a string.
- TodoApp leaves out the HTTP requests themselves (GET, DELETE, POST), rendering, routing and the unused `userId` field. Each method starts from the response body that the `then` callback receives.
- TodoApp.App.DelTodo is the state update after the DELETE succeeds. A failed request, which leaves the list as it was, is not modelled.
- `setState` is taken as immediate. React's batching of state updates is not modelled.

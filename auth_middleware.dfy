/**
  The Express middleware that guards the authenticated routes
  (functions/util/firebaseAuthMiddleware.js): it takes the ID token from an
  `Authorization: Bearer <token>` header, has Firebase Auth verify it, looks
  up the user document carrying the token's uid, records the user's handle on
  the request and passes control on; every failure answers 403.
  Token verification is a parameter (`verify`), and the users collection is
  given as the sequence of documents in the order the query returns them.
 */
module AuthMiddleware {
  import opened Wrappers
  import opened JsString
  import opened Schema

  const BearerPrefix := "Bearer "

  /**
    `request.headers.authorization && request.headers.authorization.startsWith("Bearer ")`.
    A missing header and the empty string are both falsy; the prefix test is case-sensitive
    and includes the space.
   */
  predicate HasBearer(authorization: Option<string>): (b: bool)
    ensures b <==> authorization.Some? && StartsWith(authorization.value, BearerPrefix)
  {
    authorization.Some? && authorization.value != "" && StartsWith(authorization.value, BearerPrefix)
  }

  /** A header that starts with the prefix holds a space, so `split(" ")` has a second piece. */
  lemma BearerHeaderSplits(header: string)
    requires StartsWith(header, BearerPrefix)
    ensures |Split(header, ' ')| >= 2
  {
    assert header[6] == BearerPrefix[6];
    SplitAtLeastTwo(header, ' ');
  }

  /** `authorization.split(" ")[1]`: a piece of the split, so it holds no space. */
  function BearerToken(header: string): (t: string)
    requires StartsWith(header, BearerPrefix)
    ensures ' ' !in t
  {
    BearerHeaderSplits(header);
    JoinSplit(header, ' ');
    Split(header, ' ')[1]
  }

  /**
    The token is what follows "Bearer " up to the next space or the end of the
    header: the longest space-free prefix of the rest.
   */
  lemma BearerTokenIsFirstWord(rest: string)
    ensures StartsWith(BearerPrefix + rest, BearerPrefix)
    ensures var t := BearerToken(BearerPrefix + rest);
      && |t| <= |rest| && rest[..|t|] == t && ' ' !in t
      && (|t| == |rest| || rest[|t|] == ' ')
  {
    var header := BearerPrefix + rest;
    assert header[..|BearerPrefix|] == BearerPrefix;
    assert header == "Bearer" + [' '] + rest;
    SplitAfterPiece("Bearer", rest, ' ');
    assert Split(header, ' ')[1] == Split(rest, ' ')[0];
    SplitFirstPiece(rest, ' ');
  }

  /** "Bearer abc" gives "abc", and "Bearer " gives "": a space-free rest is the whole token. */
  lemma BearerTokenOfOneWord(rest: string)
    requires ' ' !in rest
    ensures StartsWith(BearerPrefix + rest, BearerPrefix)
    ensures BearerToken(BearerPrefix + rest) == rest
  {
    BearerTokenIsFirstWord(rest);
  }

  /** "Bearer a b" gives "a": everything from the second space on is dropped. */
  lemma BearerTokenStopsAtSpace(word: string, tail: string)
    requires ' ' !in word
    ensures StartsWith(BearerPrefix + word + " " + tail, BearerPrefix)
    ensures BearerToken(BearerPrefix + word + " " + tail) == word
  {
    var rest := word + " " + tail;
    assert BearerPrefix + word + " " + tail == BearerPrefix + rest;
    BearerTokenIsFirstWord(rest);
    assert rest[..|word|] == word && rest[|word|] == ' ';
  }

  /** The three headers of the examples: "Bearer abc", "Bearer a b" and "Bearer ". */
  lemma BearerTokenExamples()
    ensures StartsWith("Bearer abc", BearerPrefix) && BearerToken("Bearer abc") == "abc"
    ensures StartsWith("Bearer a b", BearerPrefix) && BearerToken("Bearer a b") == "a"
    ensures StartsWith("Bearer ", BearerPrefix) && BearerToken("Bearer ") == ""
  {
    BearerTokenOfOneWord("abc");
    assert BearerPrefix + "abc" == "Bearer abc";
    BearerTokenStopsAtSpace("a", "b");
    assert BearerPrefix + "a" + " " + "b" == "Bearer a b";
    BearerTokenOfOneWord("");
    assert BearerPrefix + "" == "Bearer ";
  }

  /** The prefix test is case-sensitive and needs the space. */
  lemma PrefixIsExact()
    ensures !HasBearer(Some("bearer x"))
    ensures !HasBearer(Some("Bearerx"))
    ensures !HasBearer(Some(""))
    ensures !HasBearer(None)
  {
    assert "bearer x"[0] != BearerPrefix[0];
    assert "Bearerx"[6] != BearerPrefix[6];
  }

  /** The decoded ID token; the middleware reads only its `uid`. */
  datatype DecodedToken = DecodedToken(uid: string)

  /** `request.user`: the decoded token, with the `handle` property once it has been looked up. */
  datatype RequestUser = RequestUser(token: DecodedToken, handle: Option<string>)

  /** What `response.status(403).json(…)` sends. */
  datatype ErrorBody =
    | Unauthorized        // `{ error: "Unauthorized" }`: no bearer header
    | VerificationFailed  // the error `verifyIdToken` rejects with
    | NoUserDocument      // the TypeError from `data.docs[0].data()` on an empty result

  /** How the middleware ends: it calls `next()` once, or answers with a status and body. */
  datatype Outcome = Next | Respond(status: int, body: ErrorBody)

  /**
    `.where("userId", "==", uid).limit(1).get()` and then `docs[0]`: the first
    user document in query order whose `userId` is `uid`, if there is one.
   */
  function FirstMatch(users: seq<User>, uid: string): (r: Option<User>)
    ensures r.None? <==> forall i | 0 <= i < |users| :: users[i].userId != uid
    ensures r.Some? ==> exists i | 0 <= i < |users| ::
      && users[i] == r.value && r.value.userId == uid
      && forall j | 0 <= j < i :: users[j].userId != uid
    decreases |users|
  {
    if users == [] then None
    else if users[0].userId == uid then Some(users[0])
    else
      var r := FirstMatch(users[1..], uid);
      assert forall i | 1 <= i < |users| :: users[i] == users[1..][i - 1];
      r
  }

  /** The value the middleware sets `request.user` to (`None`: left alone) and the way it ends. */
  datatype Decision = Decision(user: Option<RequestUser>, outcome: Outcome)

  /** What the middleware does with a request. All rejections answer 403. */
  function Decide(authorization: Option<string>, verify: string -> Option<DecodedToken>, users: seq<User>): (r: Decision)
    ensures r.outcome.Respond? ==> r.outcome.status == 403
    ensures r.outcome == Respond(403, Unauthorized) <==> !HasBearer(authorization)
    ensures !HasBearer(authorization) ==> r.user == None
    ensures HasBearer(authorization) && verify(BearerToken(authorization.value)).None? ==>
      r == Decision(None, Respond(403, VerificationFailed))
    ensures HasBearer(authorization) && verify(BearerToken(authorization.value)).Some? ==>
      && r.user.Some? && r.user.value.token == verify(BearerToken(authorization.value)).value
      && (r.outcome == Next || r.outcome == Respond(403, NoUserDocument))
      && (r.outcome == Next <==> r.user.value.handle.Some?)
    ensures r.outcome == Next ==>
      && r.user.Some? && r.user.value.handle.Some?
      && var u := FirstMatch(users, r.user.value.token.uid);
      && u.Some? && r.user.value.handle.value == u.value.handle
  {
    if !HasBearer(authorization) then Decision(None, Respond(403, Unauthorized))
    else match verify(BearerToken(authorization.value))
      case None => Decision(None, Respond(403, VerificationFailed))
      case Some(token) =>
        match FirstMatch(users, token.uid)
        case None => Decision(Some(RequestUser(token, None)), Respond(403, NoUserDocument))
        case Some(u) => Decision(Some(RequestUser(token, Some(u.handle))), Next)
  }

  /** Without a bearer header the verifier is never consulted: the decision does not depend on it. */
  lemma NoBearerNoVerification(authorization: Option<string>, users: seq<User>,
                               verify1: string -> Option<DecodedToken>, verify2: string -> Option<DecodedToken>)
    requires !HasBearer(authorization)
    ensures Decide(authorization, verify1, users) == Decide(authorization, verify2, users)
  {
  }

  /**
    `next()` is called exactly when the header carries a bearer token that
    verifies and some user document has the token's uid; the handle recorded is
    that of the first such document.
   */
  lemma NextIffAuthenticated(authorization: Option<string>, verify: string -> Option<DecodedToken>, users: seq<User>)
    ensures Decide(authorization, verify, users).outcome == Next <==>
      && HasBearer(authorization)
      && verify(BearerToken(authorization.value)).Some?
      && exists i | 0 <= i < |users| :: users[i].userId == verify(BearerToken(authorization.value)).value.uid
  {
    if HasBearer(authorization) && verify(BearerToken(authorization.value)).Some? {
      var uid := verify(BearerToken(authorization.value)).value.uid;
      if FirstMatch(users, uid).Some? {
        var i :| 0 <= i < |users| && users[i] == FirstMatch(users, uid).value && users[i].userId == uid;
      }
    }
  }

  /** An incoming request; the middleware sets `user` on it. */
  class Request {
    const authorization: Option<string>
    var user: Option<RequestUser>

    constructor (authorization: Option<string>)
      ensures this.authorization == authorization && user == None
    {
      this.authorization := authorization;
      user := None;
    }
  }

  /**
    The middleware itself: rejects a request without a bearer header, sets
    `request.user` to the decoded token, looks the handle up, adds it, and
    calls `next`. A failed verification or lookup is caught and answered 403.
   */
  method Authenticate(request: Request, verify: string -> Option<DecodedToken>, users: seq<User>)
    returns (outcome: Outcome)
    modifies request
    ensures outcome == Decide(request.authorization, verify, users).outcome
    ensures Decide(request.authorization, verify, users).user.Some? ==>
      request.user == Decide(request.authorization, verify, users).user
    ensures Decide(request.authorization, verify, users).user.None? ==> request.user == old(request.user)
  {
    var header := request.authorization;
    if !HasBearer(header) {
      return Respond(403, Unauthorized);
    }
    var idToken := BearerToken(header.value);
    var decoded := verify(idToken);
    if decoded.None? {
      return Respond(403, VerificationFailed);
    }
    request.user := Some(RequestUser(decoded.value, None));
    var data := FirstMatch(users, request.user.value.token.uid);
    if data.None? {
      return Respond(403, NoUserDocument);
    }
    request.user := Some(request.user.value.(handle := Some(data.value.handle)));
    return Next;
  }
}

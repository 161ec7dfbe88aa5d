/** The authentication middleware: bearer-token extraction, token verification,
    user resolution, and the collapse of every failure after extraction into a
    single 401 `Invalid token`. The token verifier's signature check is the
    parameter `verify` (no claims when the token is malformed or badly signed);
    its expiry check is modelled with the clock `now`, in seconds. */
module AuthMiddleware {
  import opened Wrappers
  import opened Errors
  import Strings
  import opened AuthController

  const NoTokenMessage := "No token provided"
  const InvalidTokenMessage := "Invalid token"
  const BearerPrefix := "Bearer "

  /** `req.user`: the stored user without its password. */
  datatype Principal = Principal(id: nat, username: string, email: string)

  /** `req.header('Authorization')?.replace('Bearer ', '')`: the first occurrence of the
      prefix removed, wherever it is; `undefined` when there is no header. */
  function ExtractToken(header: Option<string>): Option<string>
  {
    match header
    case None => None
    case Some(h) => Some(Strings.ReplaceFirst(h, BearerPrefix, ""))
  }

  /** The verifier's answer: the claims of a well-signed token, unless its `exp` has been reached. */
  function Verified(token: string, now: int, verify: string -> Option<Claims>): (r: Option<Claims>)
    ensures r.Some? ==> verify(token) == r && (r.value.exp.None? || now < r.value.exp.value)
    ensures r.None? ==> verify(token).None? || (verify(token).value.exp.Some? && now >= verify(token).value.exp.value)
  {
    match verify(token)
    case None => None
    case Some(c) => if c.exp.Some? && now >= c.exp.value then None else Some(c)
  }

  /** The outcome of the middleware: the user to attach, or the error passed on. */
  function Authorize(header: Option<string>, now: int, verify: string -> Option<Claims>, users: seq<User>)
    : Result<Principal, AppError>
  {
    var token := ExtractToken(header);
    if token.None? || token.value == "" then Failure(Raise(401, NoTokenMessage))
    else
      match Verified(token.value, now, verify)
      case None => Failure(Raise(401, InvalidTokenMessage))
      case Some(claims) =>
        if claims.userId.None? then Failure(Raise(401, InvalidTokenMessage))
        else
          match Find(users, ById(claims.userId.value))
          case None => Failure(Raise(401, InvalidTokenMessage))
          case Some(i) => Success(Principal(users[i].id, users[i].username, users[i].email))
  }

  /** `Authorization: Bearer <t>` yields `t`. */
  lemma ExtractBearer(t: string)
    ensures ExtractToken(Some(BearerPrefix + t)) == Some(t)
  {
    var h := BearerPrefix + t;
    assert Strings.OccursAt(h, BearerPrefix, 0);
    assert Strings.IndexOf(h, BearerPrefix) == Some(0);
    assert h[..0] + "" + h[|BearerPrefix|..] == t;
    assert Strings.ReplaceFirst(h, BearerPrefix, "") == h[..0] + "" + h[0 + |BearerPrefix|..];
  }

  /** A header without the prefix is taken as the token itself. */
  lemma ExtractWithoutBearer(h: string)
    requires !Strings.Contains(h, BearerPrefix)
    ensures ExtractToken(Some(h)) == Some(h)
  {
  }

  /** No header, or a header that is just the prefix, means no token. */
  lemma MissingToken(now: int, verify: string -> Option<Claims>, users: seq<User>)
    ensures Authorize(None, now, verify, users) == Failure(Raise(401, NoTokenMessage))
    ensures Authorize(Some(BearerPrefix), now, verify, users) == Failure(Raise(401, NoTokenMessage))
  {
    ExtractBearer("");
    assert BearerPrefix + "" == BearerPrefix;
  }

  /** Every failure is a 401, with one of two messages, and reaches the client as such. */
  lemma FailuresAre401(header: Option<string>, now: int, verify: string -> Option<Claims>, users: seq<User>)
    ensures var r := Authorize(header, now, verify, users);
            r.Failure? ==>
              r.error.statusCode == Some(401)
              && (r.error.message == NoTokenMessage || r.error.message == InvalidTokenMessage)
              && HandleError(r.error) == ErrorReply(401, false, r.error.message)
  {
  }

  /** Once a token is past its expiry it is refused as invalid, even though its signature is good. */
  lemma ExpiredTokenRejected(t: string, c: Claims, now: int, verify: string -> Option<Claims>, users: seq<User>)
    requires t != "" && verify(t) == Some(c) && c.exp.Some? && now >= c.exp.value
    ensures Authorize(Some(BearerPrefix + t), now, verify, users) == Failure(Raise(401, InvalidTokenMessage))
  {
    ExtractBearer(t);
  }

  /** A good token for a user who no longer exists is refused as `Invalid token`, not `User not found`. */
  lemma UnknownUserIsInvalidToken(t: string, id: nat, now: int, verify: string -> Option<Claims>, users: seq<User>)
    requires t != "" && verify(t) == Some(Claims(Some(id), None))
    requires forall i :: 0 <= i < |users| ==> users[i].id != id
    ensures Authorize(Some(BearerPrefix + t), now, verify, users) == Failure(Raise(401, InvalidTokenMessage))
  {
    ExtractBearer(t);
  }

  /** A token issued for a stored user at `issuedAt` admits that user for one hour and not after. */
  lemma IssuedTokenLifetime(t: string, users: seq<User>, nextId: nat, k: nat, issuedAt: int, now: int,
                            verify: string -> Option<Claims>)
    requires UsersValid(users, nextId) && k < |users|
    requires t != "" && verify(t) == Some(IssuedClaims(users[k].id, issuedAt))
    ensures now < issuedAt + TokenLifetime ==>
              Authorize(Some(BearerPrefix + t), now, verify, users)
                == Success(Principal(users[k].id, users[k].username, users[k].email))
    ensures now >= issuedAt + TokenLifetime ==>
              Authorize(Some(BearerPrefix + t), now, verify, users) == Failure(Raise(401, InvalidTokenMessage))
  {
    ExtractBearer(t);
    var found := Find(users, ById(users[k].id));
    if found.Some? {
      assert users[found.value].id == users[k].id;
    }
  }

  /** The request as the middleware sees it: the attached user and the calls made to `next`,
      each with the error it was given (none for a plain `next()`). */
  class Request {
    var user: Option<Principal>
    var forwarded: seq<Option<AppError>>

    constructor ()
      ensures user == None && forwarded == []
    {
      user := None;
      forwarded := [];
    }
  }

  /** `authMiddleware` run on `req`: attaches the user and calls `next()` once on success;
      otherwise leaves `req.user` alone and passes the error to `next` once. */
  method Authenticate(req: Request, header: Option<string>, now: int, verify: string -> Option<Claims>,
                      users: seq<User>)
    modifies req
    ensures Authorize(header, now, verify, users).Success? ==>
              req.user == Some(Authorize(header, now, verify, users).value)
              && req.forwarded == old(req.forwarded) + [None]
    ensures Authorize(header, now, verify, users).Failure? ==>
              req.user == old(req.user)
              && req.forwarded == old(req.forwarded) + [Some(Authorize(header, now, verify, users).error)]
  {
    var token := ExtractToken(header);
    if token.None? || token.value == "" {
      req.forwarded := req.forwarded + [Some(Raise(401, NoTokenMessage))];
      return;
    }
    var invalid := Raise(401, InvalidTokenMessage);
    var decoded := Verified(token.value, now, verify);
    if decoded.None? || decoded.value.userId.None? {
      req.forwarded := req.forwarded + [Some(invalid)];
      return;
    }
    var found := Find(users, ById(decoded.value.userId.value));
    if found.None? {
      req.forwarded := req.forwarded + [Some(invalid)];
      return;
    }
    var u := users[found.value];
    req.user := Some(Principal(u.id, u.username, u.email));
    req.forwarded := req.forwarded + [None];
  }
}

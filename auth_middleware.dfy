/**
 * The authentication middleware (backend/middleware/auth.js): `protect`
 * reads a bearer token from the Authorization header, verifies it and loads
 * the user it names into the request; `authorize` lets a request through
 * only for the listed roles. Token verification is a parameter: it yields
 * the id the token carries, or nothing when verification throws.
 */
module AuthMiddleware {
  import opened Wrappers
  import opened Json
  import opened JsString
  import opened Tables
  import opened Responses
  import opened UserModel

  /** The part of an Express request the middleware reads and writes. */
  class Request {
    var authorization: Option<string>
    var user: Option<User>

    constructor (authorization: Option<string>)
      ensures this.authorization == authorization && this.user == None
    {
      this.authorization := authorization;
      this.user := None;
    }
  }

  /** Whether a middleware calls `next()` with the user, or answers itself. */
  datatype Gate = Pass(user: User) | Refuse(response: Response)

  const NotAuthorized: string := "Not authorized to access this route"

  /** `header.startsWith('Bearer')`; the comparison is case-sensitive. */
  predicate StartsWithBearer(h: string) {
    |h| >= 6 && h[..6] == "Bearer"
  }

  /**
   * The token of `protect`: the second space-separated segment of a header
   * that starts with `Bearer`; a missing segment or an empty one is no token.
   */
  function BearerToken(header: Option<string>): (t: Option<string>)
    ensures t.Some? ==> header.Some? && StartsWithBearer(header.value)
    ensures t.Some? ==> t.value != "" && |Split(header.value, ' ')| >= 2 && t.value == Split(header.value, ' ')[1]
    ensures header.Some? && StartsWithBearer(header.value) && |Split(header.value, ' ')| >= 2 && Split(header.value, ' ')[1] != "" ==> t.Some?
  {
    match header
    case None => None
    case Some(h) =>
      if !StartsWithBearer(h) then None
      else
        var parts := Split(h, ' ');
        if |parts| >= 2 && parts[1] != "" then Some(parts[1]) else None
  }

  /** `Bearer <token>`, with or without further segments, gives the token back. */
  lemma BearerRoundTrip(token: string, rest: Option<string>)
    requires token != "" && ' ' !in token
    ensures var header := "Bearer " + token + (if rest.Some? then " " + rest.value else "");
      BearerToken(Some(header)) == Some(token)
  {
    var tail := token + (if rest.Some? then " " + rest.value else "");
    var header := "Bearer " + tail;
    assert header == "Bearer" + [' '] + tail;
    SplitAfterPart("Bearer", ' ', tail);
    if rest.Some? {
      assert tail == token + [' '] + rest.value;
      SplitAfterPart(token, ' ', rest.value);
    } else {
      assert tail == token;
      SplitWithoutSeparator(token, ' ');
    }
    assert Split(tail, ' ')[0] == token;
    assert Split(header, ' ')[1] == token;
    assert header[..6] == "Bearer";
    assert "Bearer " + token + (if rest.Some? then " " + rest.value else "") == header;
  }

  /** A lower-case scheme is not recognised. */
  lemma LowerCaseSchemeRefused(token: string)
    ensures BearerToken(Some("bearer " + token)) == None
  {
    assert ("bearer " + token)[0] == 'b';
  }

  /** `User.findById(decoded.id)`. */
  function UserById(users: seq<User>, id: Id): (r: Option<User>)
    ensures r.Some? ==> r.value in users && r.value.id == id
    ensures r.None? <==> forall i :: 0 <= i < |users| ==> users[i].id != id
  {
    match FirstIndex(users, HasUserId(id))
    case None => None
    case Some(k) => Some(users[k])
  }

  /**
   * `protect`: no token or a token that fails verification is a 401 "Not
   * authorized to access this route"; a verified token whose user is gone is
   * a 401 "User not found"; otherwise the request goes on with that user.
   */
  function ProtectSpec(header: Option<string>, verify: string -> Option<Id>, users: seq<User>): (g: Gate)
    ensures g.Refuse? ==> Conforms(g.response) && g.response.httpStatus == 401
    ensures BearerToken(header).None? ==> g == Refuse(SendError(401, NotAuthorized))
    ensures BearerToken(header).Some? && verify(BearerToken(header).value).None? ==> g == Refuse(SendError(401, NotAuthorized))
    ensures BearerToken(header).Some? && verify(BearerToken(header).value).Some? &&
            UserById(users, verify(BearerToken(header).value).value).None? ==>
      g == Refuse(SendError(401, "User not found"))
    ensures g.Pass? <==>
      && BearerToken(header).Some? && verify(BearerToken(header).value).Some?
      && exists i :: 0 <= i < |users| && users[i].id == verify(BearerToken(header).value).value
    ensures g.Pass? ==> g.user in users && g.user.id == verify(BearerToken(header).value).value
  {
    match BearerToken(header)
    case None => Refuse(SendError(401, NotAuthorized))
    case Some(token) =>
      match verify(token)
      case None => Refuse(SendError(401, NotAuthorized))
      case Some(id) =>
        match UserById(users, id)
        case None => Refuse(SendError(401, "User not found"))
        case Some(u) => Pass(u)
  }

  /**
   * `protect` on a request: `req.user` is assigned once the token verifies,
   * with nothing when the user is gone, and left alone before that.
   */
  method Protect(req: Request, verify: string -> Option<Id>, users: seq<User>) returns (g: Gate)
    modifies req
    ensures g == ProtectSpec(old(req.authorization), verify, users)
    ensures req.authorization == old(req.authorization)
    ensures g.Pass? ==> req.user == Some(g.user)
    ensures var t := BearerToken(old(req.authorization));
      t.None? || verify(t.value).None? ==> req.user == old(req.user)
    ensures var t := BearerToken(old(req.authorization));
      t.Some? && verify(t.value).Some? ==> req.user == UserById(users, verify(t.value).value)
  {
    var token := BearerToken(req.authorization);
    if token.None? {
      return Refuse(SendError(401, NotAuthorized));
    }
    var decoded := verify(token.value);
    if decoded.None? {
      return Refuse(SendError(401, NotAuthorized));
    }
    req.user := UserById(users, decoded.value);
    if req.user.None? {
      return Refuse(SendError(401, "User not found"));
    }
    g := Pass(req.user.value);
  }

  /** `authorize(...roles)`: the request goes on exactly when the user's role is listed; otherwise a 403 naming the role. */
  function Authorize(roles: seq<string>, user: User): (g: Gate)
    ensures g.Pass? <==> user.role in roles
    ensures g.Pass? ==> g.user == user
    ensures g.Refuse? ==> Conforms(g.response) && g.response.httpStatus == 403
    ensures g.Refuse? ==> g.response.body.message == "User role " + user.role + " is not authorized to access this route"
  {
    if user.role in roles then Pass(user)
    else Refuse(SendError(403, "User role " + user.role + " is not authorized to access this route"))
  }
}

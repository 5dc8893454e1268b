/**
 * The authentication middleware (Backend/middleware/auth.js): the bearer-header
 * check, the extraction of the token as the second space-separated segment,
 * and the mapping of the verification and user-lookup outcomes to 401 and 500
 * replies. On success the user is attached to the request and `next` is called.
 *
 * `jwt.verify` and `User.findById` are given as functions from their argument to
 * their outcome: a value, or a thrown error identified by its `name`.
 */
module Auth {
  import opened Base

  datatype Attempt<T> = Returned(value: T) | Threw(errorName: string)

  /** A user record as the lookup returns it (without its password). */
  datatype User = User(id: string)

  datatype Decision = Deny(status: int, message: string) | Admit(user: User)

  const BearerPrefix := "Bearer "
  const NoTokenMessage := "No token provided. Authorization denied."
  const UserNotFoundMessage := "Token is not valid. User not found."
  const InvalidTokenMessage := "Invalid token."
  const ExpiredTokenMessage := "Token has expired."
  const ServerErrorMessage := "Server error during authentication."

  // ---------------------------------------------------------------------------
  // `String.prototype.split(' ')`

  /** The segments between single spaces; two adjacent spaces give an empty
      segment between them. */
  function Split(s: string): (parts: seq<string>)
    ensures |parts| >= 1
    ensures forall i :: 0 <= i < |parts| ==> ' ' !in parts[i]
  {
    if s == [] then [""]
    else
      var rest := Split(s[1..]);
      if s[0] == ' ' then [""] + rest
      else
        assert forall i :: 1 <= i < |rest| ==> ' ' !in rest[i];
        [[s[0]] + rest[0]] + rest[1..]
  }

  /** `parts.join(' ')`. */
  function Join(parts: seq<string>): string
    requires |parts| >= 1
  {
    if |parts| == 1 then parts[0] else parts[0] + " " + Join(parts[1..])
  }

  lemma {:induction false} JoinHead(x: string, parts: seq<string>)
    requires |parts| >= 1
    ensures Join([x + parts[0]] + parts[1..]) == x + Join(parts)
  {
    var q := [x + parts[0]] + parts[1..];
    assert |q| == |parts| && q[0] == x + parts[0];
    if |parts| > 1 {
      assert q[1..] == parts[1..];
      var j := Join(parts[1..]);
      assert Join(q) == (x + parts[0]) + " " + j;
      assert Join(parts) == parts[0] + " " + j;
      assert (x + parts[0]) + " " + j == x + (parts[0] + " " + j);
    }
  }

  /** Splitting loses nothing: joining the segments with spaces gives back the
      string. */
  lemma {:induction false} JoinSplit(s: string)
    ensures Join(Split(s)) == s
  {
    if s != [] {
      var rest := Split(s[1..]);
      JoinSplit(s[1..]);
      if s[0] == ' ' {
        assert ([""] + rest)[1..] == rest;
      } else {
        JoinHead([s[0]], rest);
      }
      assert s == [s[0]] + s[1..];
    }
  }

  /** A segment without spaces is one segment. */
  lemma {:induction false} SplitWord(w: string)
    requires ' ' !in w
    ensures Split(w) == [w]
  {
    if w != [] {
      SplitWord(w[1..]);
      assert w == [w[0]] + w[1..];
    }
  }

  /** A space-free word followed by a space is split off as the first segment. */
  lemma {:induction false} SplitAfterWord(w: string, s: string)
    requires ' ' !in w
    ensures Split(w + " " + s) == [w] + Split(s)
  {
    if w == [] {
      assert w + " " + s == [' '] + s;
      assert (w + " " + s)[1..] == s;
    } else {
      assert (w + " " + s)[1..] == w[1..] + " " + s;
      SplitAfterWord(w[1..], s);
      assert w == [w[0]] + w[1..];
    }
  }

  /** Splitting the space-joined segments gives the segments back. */
  lemma {:induction false} SplitJoin(parts: seq<string>)
    requires |parts| >= 1
    requires forall i :: 0 <= i < |parts| ==> ' ' !in parts[i]
    ensures Split(Join(parts)) == parts
  {
    if |parts| == 1 {
      SplitWord(parts[0]);
    } else {
      SplitJoin(parts[1..]);
      SplitAfterWord(parts[0], Join(parts[1..]));
      assert parts == [parts[0]] + parts[1..];
    }
  }

  // ---------------------------------------------------------------------------
  // The header

  /** `authHeader && authHeader.startsWith('Bearer ')`: the scheme is matched
      exactly, upper-case B included. */
  predicate IsBearer(header: Option<string>)
  {
    header.Some? && StartsWith(header.value, BearerPrefix)
  }

  /** A header that starts with the scheme splits into the scheme and the
      segments of what follows it. */
  lemma BearerSegments(header: string)
    requires StartsWith(header, BearerPrefix)
    ensures Split(header) == ["Bearer"] + Split(header[|BearerPrefix|..])
  {
    var rest := header[|BearerPrefix|..];
    assert header == "Bearer" + " " + rest;
    SplitAfterWord("Bearer", rest);
  }

  /** The first segment of `s` is a prefix of `s`, and it is all of `s` or is
      followed by a space. */
  lemma FirstSegment(s: string)
    ensures StartsWith(s, Split(s)[0])
    ensures Split(s)[0] == s || StartsWith(s, Split(s)[0] + " ")
  {
    var parts := Split(s);
    JoinSplit(s);
    if |parts| > 1 {
      assert Join(parts) == parts[0] + " " + Join(parts[1..]);
      assert s[..|parts[0] + " "|] == parts[0] + " ";
    }
  }

  /** `authHeader.split(' ')[1]`: the second space-separated segment, that is,
      the word after the scheme up to the next space (or the end). */
  function TokenOf(header: string): (token: string)
    requires StartsWith(header, BearerPrefix)
    ensures ' ' !in token
    ensures StartsWith(header[|BearerPrefix|..], token)
    ensures token == header[|BearerPrefix|..] || StartsWith(header[|BearerPrefix|..], token + " ")
  {
    BearerSegments(header);
    FirstSegment(header[|BearerPrefix|..]);
    Split(header)[1]
  }

  /** The token is the word after "Bearer ", up to the next space: "Bearer a b"
      yields "a". */
  lemma BearerToken(t: string, tail: string)
    requires ' ' !in t
    ensures TokenOf(BearerPrefix + t) == t
    ensures TokenOf(BearerPrefix + t + " " + tail) == t
  {
    SplitWord(t);
    assert (BearerPrefix + t)[..|BearerPrefix|] == BearerPrefix;
    assert (BearerPrefix + t)[|BearerPrefix|..] == t;
    BearerSegments(BearerPrefix + t);
    var h := BearerPrefix + t + " " + tail;
    assert h[..|BearerPrefix|] == BearerPrefix;
    SplitAfterWord(t, tail);
    assert h[|BearerPrefix|..] == t + " " + tail;
    BearerSegments(h);
  }

  // ---------------------------------------------------------------------------
  // The decision

  /** The reply for an error thrown after the header check. */
  function ErrorReply(errorName: string): (d: Decision)
    ensures errorName == "JsonWebTokenError" ==> d == Deny(401, InvalidTokenMessage)
    ensures errorName == "TokenExpiredError" ==> d == Deny(401, ExpiredTokenMessage)
    ensures errorName != "JsonWebTokenError" && errorName != "TokenExpiredError" ==>
              d == Deny(500, ServerErrorMessage)
  {
    if errorName == "JsonWebTokenError" then Deny(401, InvalidTokenMessage)
    else if errorName == "TokenExpiredError" then Deny(401, ExpiredTokenMessage)
    else Deny(500, ServerErrorMessage)
  }

  /** The outcome of the middleware: a missing or non-bearer header is refused
      before verification; a thrown verification or lookup error is mapped by
      its name; a verified token whose user is not found is refused; otherwise
      the user is admitted. `verify` maps a token to the user id it carries,
      `findById` a user id to the user record, if any. */
  function Authenticate(header: Option<string>, verify: string -> Attempt<string>,
                        findById: string -> Attempt<Option<User>>): (d: Decision)
    ensures !IsBearer(header) ==> d == Deny(401, NoTokenMessage)
    ensures IsBearer(header) && verify(TokenOf(header.value)).Threw? ==>
              d == ErrorReply(verify(TokenOf(header.value)).errorName)
    ensures IsBearer(header) && verify(TokenOf(header.value)).Returned? ==>
              var found := findById(verify(TokenOf(header.value)).value);
              (found.Threw? ==> d == ErrorReply(found.errorName))
              && (found == Returned(None) ==> d == Deny(401, UserNotFoundMessage))
              && (found.Returned? && found.value.Some? ==> d == Admit(found.value.value))
    ensures d.Admit? ==> IsBearer(header)
    ensures d.Deny? ==> d.status == 401 || d.status == 500
  {
    if !IsBearer(header) then Deny(401, NoTokenMessage)
    else
      match verify(TokenOf(header.value))
      case Threw(name) => ErrorReply(name)
      case Returned(userId) =>
        match findById(userId)
        case Threw(name) => ErrorReply(name)
        case Returned(None) => Deny(401, UserNotFoundMessage)
        case Returned(Some(user)) => Admit(user)
  }

  /** The header check does not consult the verifier or the user store: a
      refused header gets the same reply whatever they would have answered. */
  lemma RefusedWithoutVerification(header: Option<string>,
                                   verify1: string -> Attempt<string>, findById1: string -> Attempt<Option<User>>,
                                   verify2: string -> Attempt<string>, findById2: string -> Attempt<Option<User>>)
    requires !IsBearer(header)
    ensures Authenticate(header, verify1, findById1) == Authenticate(header, verify2, findById2)
    ensures Authenticate(header, verify1, findById1) == Deny(401, NoTokenMessage)
  {
  }

  /** The scheme test is case-sensitive: a lower-case "bearer" header is refused. */
  lemma LowerCaseSchemeRefused(token: string, verify: string -> Attempt<string>,
                                findById: string -> Attempt<Option<User>>)
    ensures Authenticate(Some("bearer " + token), verify, findById) == Deny(401, NoTokenMessage)
  {
    assert ("bearer " + token)[0] == 'b';
  }

  // ---------------------------------------------------------------------------
  // The middleware on the request and response objects

  class Request {
    var authorization: Option<string>
    var user: Option<User>

    constructor (authorization: Option<string>)
      ensures this.authorization == authorization && user.None?
    {
      this.authorization := authorization;
      user := None;
    }
  }

  datatype Sent = Sent(status: int, success: bool, message: string)

  class Response {
    var sent: Option<Sent>

    constructor ()
      ensures sent.None?
    {
      sent := None;
    }
  }

  /** `authMiddleware(req, res, next)`: either sends one refusal and leaves the
      request alone, or attaches the user and calls `next` exactly once without
      sending anything. Returns how many times `next` was called. */
  method AuthMiddleware(req: Request, res: Response, verify: string -> Attempt<string>,
                        findById: string -> Attempt<Option<User>>) returns (nextCalls: nat)
    modifies req, res
    ensures req.authorization == old(req.authorization)
    ensures match Authenticate(req.authorization, verify, findById)
            case Admit(user) =>
              req.user == Some(user) && nextCalls == 1 && res.sent == old(res.sent)
            case Deny(status, message) =>
              req.user == old(req.user) && nextCalls == 0 && res.sent == Some(Sent(status, false, message))
  {
    var authHeader := req.authorization;
    if !IsBearer(authHeader) {
      res.sent := Some(Sent(401, false, NoTokenMessage));
      return 0;
    }
    var token := TokenOf(authHeader.value);
    var failure: Option<string> := None;
    var found: Option<User> := None;
    match verify(token) {
      case Threw(name) =>
        failure := Some(name);
      case Returned(userId) =>
        match findById(userId) {
          case Threw(name) =>
            failure := Some(name);
          case Returned(user) =>
            found := user;
        }
    }
    if failure.Some? {
      var d := ErrorReply(failure.value);
      res.sent := Some(Sent(d.status, false, d.message));
      return 0;
    }
    if found.None? {
      res.sent := Some(Sent(401, false, UserNotFoundMessage));
      return 0;
    }
    req.user := found;
    nextCalls := 1;
  }
}

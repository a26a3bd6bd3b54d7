/** The `authenticateToken` middleware (server/middleware/auth.js): it takes
    the bearer token from the `authorization` header and builds the principal
    that every trading route sees as `req.user`. */
module Auth {
  import opened JsText

  datatype Role = Parent | Child

  /** `req.user`. */
  datatype Principal = Principal(user_id: string, access_token: string, role: Role)

  /** Either the 401 response (the handler and `next` are not reached), or
      the principal with which `next` is called, once. */
  datatype AuthOutcome =
    | Unauthorized(status: int, error: string)
    | Authenticated(user: Principal)

  const USER_PREFIX := "user_"
  const PARENT_MARKER := "parent"
  /** `substring(0, 8)`: how many leading token characters form the user id. */
  const USER_ID_TOKEN_CHARS := 8

  /** `authHeader && authHeader.split(' ')[1]`, with every falsy outcome
      (no header, empty header, no second field, empty second field) as None. */
  function BearerToken(header: Option<string>): (t: Option<string>)
    ensures !Truthy(header) ==> t.None?
    ensures t.Some? ==> t.value != "" && ' ' !in t.value
    ensures t.Some? ==> t.value in Split(header.value, ' ')
  {
    if !Truthy(header) then None
    else
      var field := Field(header.value, ' ', 1);
      SplitJoin(header.value, ' ');
      if Truthy(field) then field else None
  }

  /** `token.substring(0, 8)`, which clamps to the token's length. */
  function TokenPrefix(token: string): string {
    if |token| <= USER_ID_TOKEN_CHARS then token else token[..USER_ID_TOKEN_CHARS]
  }

  function RoleOf(token: string): Role {
    if Contains(token, PARENT_MARKER) then Parent else Child
  }

  /** The middleware: a 401 when no usable token is present, otherwise the principal. */
  function Authenticate(header: Option<string>): (r: AuthOutcome)
    ensures r.Unauthorized? <==> BearerToken(header).None?
    ensures r.Unauthorized? ==> r.status == 401
    ensures r.Authenticated? ==>
      && r.user.access_token != ""
      && ' ' !in r.user.access_token
      && |r.user.user_id| == |USER_PREFIX| + (if |r.user.access_token| < USER_ID_TOKEN_CHARS then |r.user.access_token| else USER_ID_TOKEN_CHARS)
      && r.user.user_id[..|USER_PREFIX|] == USER_PREFIX
      && r.user.user_id[|USER_PREFIX|..] <= r.user.access_token
  {
    match BearerToken(header)
    case None => Unauthorized(401, "Access token required")
    case Some(token) =>
      SplitJoin(header.value, ' ');
      Authenticated(Principal(USER_PREFIX + TokenPrefix(token), token, RoleOf(token)))
  }

  /** A missing or empty header is rejected with 401 and no principal. */
  lemma MissingHeaderRejected(header: Option<string>)
    requires header.None? || header == Some("")
    ensures Authenticate(header) == Unauthorized(401, "Access token required")
  {
  }

  /** The token is the text between the first and the second space of the
      header: a header is accepted with token `t` exactly when it reads
      `a + " " + t + rest`, with no space in `a` or in a non-empty `t`, and
      `rest` empty or starting with a space. So "Bearer" and "Bearer  x" are
      both rejected. */
  lemma TokenIsSecondWord(header: string, t: string)
    ensures (Authenticate(Some(header)).Authenticated? && Authenticate(Some(header)).user.access_token == t)
      <==> (t != "" && exists a, rest :: SecondWord(header, ' ', a, t, rest))
  {
    SecondFieldIff(header, ' ', t);
  }

  /** Two tokens that agree on their first eight characters are given the same user id. */
  lemma {:induction false} UserIdFromFirstEightChars(h1: Option<string>, h2: Option<string>)
    requires Authenticate(h1).Authenticated? && Authenticate(h2).Authenticated?
    requires |Authenticate(h1).user.access_token| >= USER_ID_TOKEN_CHARS && |Authenticate(h2).user.access_token| >= USER_ID_TOKEN_CHARS
    requires Authenticate(h1).user.access_token[..USER_ID_TOKEN_CHARS] == Authenticate(h2).user.access_token[..USER_ID_TOKEN_CHARS]
    ensures Authenticate(h1).user.user_id == Authenticate(h2).user.user_id
  {
    var t1 := Authenticate(h1).user.access_token;
    var t2 := Authenticate(h2).user.access_token;
    assert TokenPrefix(t1) == t1[..USER_ID_TOKEN_CHARS];
    assert TokenPrefix(t2) == t2[..USER_ID_TOKEN_CHARS];
  }

  /** The role is Parent exactly when "parent" occurs somewhere in the token. */
  lemma RoleDetection(header: Option<string>)
    requires Authenticate(header).Authenticated?
    ensures var u := Authenticate(header).user;
      u.role == Parent <==> exists i :: OccursAt(u.access_token, "parent", i)
  {
    ContainsIff(Authenticate(header).user.access_token, PARENT_MARKER);
  }
}

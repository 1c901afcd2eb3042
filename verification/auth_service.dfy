/** The account service (backend/auth/index.py): registers an account with
    a username, a password and at least one of email and phone; logs in by
    username, email or phone together with the password; and reads a
    profile.

    The `users` table is a sequence of rows in insertion order together
    with the last value drawn from its serial sequence (`lastId`). The
    INSERT draws the next value before the unique constraints are checked,
    and a failed INSERT does not give it back, so ids are increasing but may
    have gaps. `hash_password` is the uninterpreted
    parameter `hash`; the bytes drawn by `secrets.token_hex(5)` are the
    parameter `token`; the clock is the integer `now`. The table's unique
    constraints are not part of this code, so whether the INSERT raises an
    integrity error, and its text, is the parameter `conflict`. */
module AuthService {
  import opened Wrappers
  import opened Text
  import opened Numerals
  import opened Accounts

  /** The JSON request bodies; a missing field is `None`. */
  datatype RegisterRequest = RegisterRequest(
    username: Option<string>,
    email: Option<string>,
    phone: Option<string>,
    password: Option<string>)

  datatype LoginRequest = LoginRequest(identifier: Option<string>, password: Option<string>)

  /** The columns `get_profile` returns. */
  datatype Profile = Profile(
    id: nat,
    uniqueId: string,
    username: string,
    email: Option<string>,
    phone: Option<string>,
    avatarUrl: Option<string>,
    bio: Option<string>,
    isOnline: bool,
    lastSeen: Option<int>)

  datatype Body =
    | Failure(error: string)
    | Registered(user: PublicUser)
    | SignedIn(user: PublicUser)
    | ProfileFound(profile: Profile)
    | Banner(message: string, endpoints: seq<string>)
    | NoContent

  datatype Response = Response(status: int, body: Body)

  datatype Route = Preflight | Unconfigured | Register | Login | ReadProfile | Info

  /** `handler`: the route taken for a request. */
  function Dispatch(httpMethod: Option<string>, action: Option<string>, databaseConfigured: bool): (r: Route)
    ensures r == Preflight <==> httpMethod == Some("OPTIONS")
    ensures r == Unconfigured <==> httpMethod != Some("OPTIONS") && !databaseConfigured
    ensures r == Register <==> databaseConfigured && httpMethod == Some("POST") && action == Some("register")
    ensures r == Login <==> databaseConfigured && httpMethod == Some("POST") && action == Some("login")
    ensures r == ReadProfile <==> databaseConfigured && httpMethod.GetOr("GET") == "GET" && action == Some("profile")
  {
    var verb := httpMethod.GetOr("GET");
    var act := action.GetOr("");
    if verb == "OPTIONS" then Preflight
    else if !databaseConfigured then Unconfigured
    else if verb == "POST" && act == "register" then Register
    else if verb == "POST" && act == "login" then Login
    else if verb == "GET" && act == "profile" then ReadProfile
    else Info
  }

  /** `generate_unique_id`: `secrets.token_hex(5).upper()`. */
  function GenerateUniqueId(token: seq<Byte>): (id: string)
    requires |token| == 5
    ensures |id| == 10
    ensures forall i :: 0 <= i < |id| ==> IsHexUpper(id[i])
    ensures ParseHexUpper(id) == token
  {
    HexRoundTrip(token);
    HexUpper(token)
  }

  /** `value if value else None` for the email and phone values of the
      INSERT (backend/auth/index.py:89): a blank field is stored as NULL. */
  function NullIfEmpty(s: string): (r: Option<string>)
    ensures r.None? <==> s == ""
    ensures r.Some? ==> r.value == s
  {
    if s == "" then None else Some(s)
  }

  const ConflictMessages: set<string> :=
    {"Username already exists", "Email already registered", "Phone already registered", "Registration failed"}

  /** The message of a 409 reply, chosen from the text of the integrity
      error: the first of "username", "email", "phone" found in it. */
  function ConflictMessage(text: string): (msg: string)
    ensures msg in ConflictMessages
    ensures msg == "Registration failed" <==>
      !Contains(text, "username") && !Contains(text, "email") && !Contains(text, "phone")
    ensures msg == "Username already exists" <==> Contains(text, "username")
    ensures msg == "Email already registered" <==> !Contains(text, "username") && Contains(text, "email")
  {
    if Contains(text, "username") then "Username already exists"
    else if Contains(text, "email") then "Email already registered"
    else if Contains(text, "phone") then "Phone already registered"
    else "Registration failed"
  }

  /** The local checks of `register_user` reject the request. */
  predicate RegisterInvalid(request: RegisterRequest) {
    || IsBlank(request.username.GetOr("")) || IsBlank(request.password.GetOr(""))
    || (IsBlank(request.email.GetOr("")) && IsBlank(request.phone.GetOr("")))
  }

  /** The row `register_user` inserts, with the serial id `id`. */
  function NewAccount(id: nat, request: RegisterRequest, token: seq<Byte>, hash: string -> string): UserRow
    requires |token| == 5
  {
    UserRow(
      id := id,
      uniqueId := GenerateUniqueId(token),
      username := Strip(request.username.GetOr("")),
      email := NullIfEmpty(Strip(request.email.GetOr(""))),
      phone := NullIfEmpty(Strip(request.phone.GetOr(""))),
      passwordHash := hash(Strip(request.password.GetOr(""))),
      avatarUrl := None,
      bio := None,
      isOnline := false,
      lastSeen := None)
  }

  /** `register_user`: the reply and the table afterwards. A new row
      takes the id after the sequence's last value `lastId`. */
  function RegisterOutcome(users: seq<UserRow>, lastId: nat, request: RegisterRequest, token: seq<Byte>,
                           hash: string -> string, conflict: Option<string>): (out: (Response, seq<UserRow>))
    requires |token| == 5
    ensures out.0.status in {201, 400, 409}
    ensures out.0.status == 400 <==> RegisterInvalid(request)
    ensures out.0.status == 400 && (IsBlank(request.username.GetOr("")) || IsBlank(request.password.GetOr(""))) ==>
      out.0.body == Failure("Username and password are required")
    ensures out.0.status == 400 && !IsBlank(request.username.GetOr("")) && !IsBlank(request.password.GetOr("")) ==>
      out.0.body == Failure("Email or phone is required")
    ensures out.0.status == 409 <==> !RegisterInvalid(request) && conflict.Some?
    ensures out.0.status == 409 ==> out.0.body == Failure(ConflictMessage(conflict.value))
    ensures out.0.status != 201 ==> out.1 == users
    ensures out.0.status == 201 ==>
      && |out.1| == |users| + 1 && out.1[..|users|] == users
      && var row := out.1[|users|];
      && row.username == Strip(request.username.GetOr("")) && row.username != ""
      && row.email == NullIfEmpty(Strip(request.email.GetOr("")))
      && row.phone == NullIfEmpty(Strip(request.phone.GetOr("")))
      && (row.email.Some? || row.phone.Some?)
      && row.passwordHash == hash(Strip(request.password.GetOr("")))
      && row.uniqueId == GenerateUniqueId(token)
      && row.id == lastId + 1
      && row.avatarUrl.None? && row.bio.None? && !row.isOnline && row.lastSeen.None?
      && out.0.body == Registered(PublicView(row))
  {
    var username := Strip(request.username.GetOr(""));
    var email := Strip(request.email.GetOr(""));
    var phone := Strip(request.phone.GetOr(""));
    var password := Strip(request.password.GetOr(""));
    if username == "" || password == "" then
      (Response(400, Failure("Username and password are required")), users)
    else if email == "" && phone == "" then
      (Response(400, Failure("Email or phone is required")), users)
    else if conflict.Some? then
      (Response(409, Failure(ConflictMessage(conflict.value))), users)
    else
      var row := NewAccount(lastId + 1, request, token, hash);
      (Response(201, Registered(PublicView(row))), users + [row])
  }

  /** The sequence's last value after `register_user`: a request that
      passes the local checks reaches the INSERT, which draws the next
      value whether or not it then fails with an integrity error. */
  function LastIdAfter(lastId: nat, request: RegisterRequest): (r: nat)
    ensures r == lastId <==> RegisterInvalid(request)
    ensures r != lastId ==> r == lastId + 1
  {
    if RegisterInvalid(request) then lastId else lastId + 1
  }


  /** The login query matches the row: the identifier is its username,
      email or phone (NULL matches nothing) and the password hash agrees. */
  predicate Authenticates(row: UserRow, identifier: string, digest: string) {
    (row.username == identifier || row.email == Some(identifier) || row.phone == Some(identifier))
    && row.passwordHash == digest
  }

  /** The row `fetchone()` returns; the query has no ORDER BY, and the
      model takes the first matching row in table order. */
  function FirstMatch(users: seq<UserRow>, identifier: string, digest: string): (r: Option<nat>)
    ensures r.None? <==> forall j :: 0 <= j < |users| ==> !Authenticates(users[j], identifier, digest)
    ensures r.Some? ==> r.value < |users| && Authenticates(users[r.value], identifier, digest)
    ensures r.Some? ==> forall j :: 0 <= j < r.value ==> !Authenticates(users[j], identifier, digest)
  {
    if users == [] then None
    else if Authenticates(users[0], identifier, digest) then Some(0)
    else
      var rest := FirstMatch(users[1..], identifier, digest);
      if rest.None? then None else Some(rest.value + 1)
  }

  /** `login_user`: the reply and the table afterwards. */
  function LoginOutcome(users: seq<UserRow>, request: LoginRequest, hash: string -> string, now: int): (out: (Response, seq<UserRow>))
    ensures var identifier := Strip(request.identifier.GetOr(""));
      var password := Strip(request.password.GetOr(""));
      && out.0.status in {200, 400, 401}
      && |out.1| == |users|
      && (out.0.status == 400 <==> identifier == "" || password == "")
      && (out.0.status == 200 <==>
            (identifier != "" && password != "" &&
             exists j :: 0 <= j < |users| && Authenticates(users[j], identifier, hash(password))))
      && (out.0.status != 200 ==> out.1 == users)
      && (out.0.status == 200 ==>
            var i := FirstMatch(users, identifier, hash(password)).value;
            && out.1[i] == users[i].(isOnline := true, lastSeen := Some(now))
            && (forall j :: 0 <= j < |users| && j != i ==> out.1[j] == users[j])
            && out.0.body == SignedIn(PublicView(users[i])))
  {
    var identifier := Strip(request.identifier.GetOr(""));
    var password := Strip(request.password.GetOr(""));
    if identifier == "" || password == "" then
      (Response(400, Failure("Identifier and password are required")), users)
    else
      match FirstMatch(users, identifier, hash(password))
      case None =>
        (Response(401, Failure("Invalid credentials")), users)
      case Some(i) =>
        (Response(200, SignedIn(PublicView(users[i]))),
         users[i := users[i].(isOnline := true, lastSeen := Some(now))])
  }

  /** Round trip: right after a successful registration, logging in with
      the registered username, or with the email or phone given, and the
      same password succeeds. */
  lemma RegisteredAccountCanLogIn(users: seq<UserRow>, lastId: nat, request: RegisterRequest, token: seq<Byte>,
                                  hash: string -> string, identifier: string, now: int)
    requires |token| == 5
    requires RegisterOutcome(users, lastId, request, token, hash, None).0.status == 201
    requires identifier == Strip(request.username.GetOr(""))
          || (identifier == Strip(request.email.GetOr("")) && identifier != "")
          || (identifier == Strip(request.phone.GetOr("")) && identifier != "")
    ensures var users' := RegisterOutcome(users, lastId, request, token, hash, None).1;
      LoginOutcome(users', LoginRequest(Some(identifier), request.password), hash, now).0.status == 200
  {
    var users' := RegisterOutcome(users, lastId, request, token, hash, None).1;
    var password := Strip(request.password.GetOr(""));
    StripIdempotent(identifier);
    assert Strip(identifier) == identifier by {
      if identifier == Strip(request.username.GetOr("")) {
        StripIdempotent(request.username.GetOr(""));
      } else if identifier == Strip(request.email.GetOr("")) {
        StripIdempotent(request.email.GetOr(""));
      } else {
        StripIdempotent(request.phone.GetOr(""));
      }
    }
    assert Authenticates(users'[|users|], identifier, hash(password));
  }

  /** Logging in changes only presence columns, so it does not change the
      outcome of the next login with the same credentials. */
  lemma {:induction false} LoginIsRepeatable(users: seq<UserRow>, request: LoginRequest, hash: string -> string, now: int, later: int)
    ensures var first := LoginOutcome(users, request, hash, now);
      LoginOutcome(first.1, request, hash, later).0.status == first.0.status
  {
    var first := LoginOutcome(users, request, hash, now);
    var identifier := Strip(request.identifier.GetOr(""));
    var digest := hash(Strip(request.password.GetOr("")));
    forall j | 0 <= j < |users|
      ensures Authenticates(first.1[j], identifier, digest) <==> Authenticates(users[j], identifier, digest)
    {
    }
    if first.0.status == 200 {
      var i := FirstMatch(users, identifier, digest).value;
      assert Authenticates(first.1[i], identifier, digest);
    }
  }

  /** `get_profile`: the reply for the `user_id` query parameter (`None`
      when absent or empty). */
  function ProfileOutcome(users: seq<UserRow>, userId: Option<int>): (resp: Response)
    ensures resp.status in {200, 400, 404}
    ensures resp.status == 400 <==> userId.None?
    ensures resp.status == 404 <==> userId.Some? && forall j :: 0 <= j < |users| ==> users[j].id != userId.value
    ensures resp.status == 200 ==>
      && var row := RowWithId(users, userId.value).value;
      && resp.body == ProfileFound(Profile(row.id, row.uniqueId, row.username, row.email, row.phone,
                                           row.avatarUrl, row.bio, row.isOnline, row.lastSeen))
      && row.id == userId.value
  {
    if userId.None? then
      Response(400, Failure("User ID is required"))
    else
      match RowWithId(users, userId.value)
      case None => Response(404, Failure("User not found"))
      case Some(row) =>
        Response(200, ProfileFound(Profile(row.id, row.uniqueId, row.username, row.email, row.phone,
                                           row.avatarUrl, row.bio, row.isOnline, row.lastSeen)))
  }

  /** The reply of the routes that do not touch the table. */
  function FixedResponse(route: Route): Response
    requires route == Preflight || route == Unconfigured || route == Info
  {
    match route
    case Preflight => Response(200, NoContent)
    case Unconfigured => Response(500, Failure("Database connection not configured"))
    case Info => Response(200, Banner("OfChat Auth API", ["/register", "/login", "/profile"]))
  }

  /** Every row's serial id was drawn from the sequence, ids increase in
      insertion order (so no two rows share one), and every public id has
      the generated format. */
  predicate WellFormed(users: seq<UserRow>, lastId: nat) {
    && (forall j :: 0 <= j < |users| ==> 1 <= users[j].id <= lastId && |users[j].uniqueId| == 10)
    && (forall i, j :: 0 <= i < j < |users| ==> users[i].id < users[j].id)
  }

  /** Appending a row with the next serial value and a ten-character
      public id keeps a table well formed. */
  lemma AppendKeepsWellFormed(users: seq<UserRow>, lastId: nat, grown: seq<UserRow>)
    requires WellFormed(users, lastId)
    requires |grown| == |users| + 1 && grown[..|users|] == users
    requires grown[|users|].id == lastId + 1 && |grown[|users|].uniqueId| == 10
    ensures WellFormed(grown, lastId + 1)
  {
    forall j | 0 <= j < |users|
      ensures grown[j] == users[j]
    {
      assert grown[..|users|][j] == grown[j];
    }
  }

  /** Registration keeps the table well formed against the advanced
      sequence. */
  lemma RegisterKeepsWellFormed(users: seq<UserRow>, lastId: nat, request: RegisterRequest, token: seq<Byte>,
                                hash: string -> string, conflict: Option<string>)
    requires |token| == 5 && WellFormed(users, lastId)
    ensures var out := RegisterOutcome(users, lastId, request, token, hash, conflict);
      WellFormed(out.1, LastIdAfter(lastId, request))
  {
    var out := RegisterOutcome(users, lastId, request, token, hash, conflict);
    if out.0.status == 201 {
      AppendKeepsWellFormed(users, lastId, out.1);
    }
  }

  /** A rejected INSERT still uses up an id: after a 409, the next
      successful registration is given the id after the one the failed
      request drew. */
  lemma ConflictSkipsAnId(users: seq<UserRow>, lastId: nat, first: RegisterRequest, second: RegisterRequest,
                          token: seq<Byte>, token': seq<Byte>, hash: string -> string, text: string)
    requires |token| == 5 && |token'| == 5
    requires RegisterOutcome(users, lastId, first, token, hash, Some(text)).0.status == 409
    requires !RegisterInvalid(second)
    ensures var failed := RegisterOutcome(users, lastId, first, token, hash, Some(text)).1;
      var next := RegisterOutcome(failed, LastIdAfter(lastId, first), second, token', hash, None);
      next.0.status == 201 && next.0.body.user.id == lastId + 2
  {
  }

  /** Logging in touches only the presence fields, so every row keeps
      its ids. */
  lemma LoginKeepsWellFormed(users: seq<UserRow>, lastId: nat, request: LoginRequest, hash: string -> string, now: int)
    requires WellFormed(users, lastId)
    ensures WellFormed(LoginOutcome(users, request, hash, now).1, lastId)
  {
    var identifier := Strip(request.identifier.GetOr(""));
    var password := Strip(request.password.GetOr(""));
    var found := FirstMatch(users, identifier, hash(password));
    if identifier != "" && password != "" && found.Some? {
      var i := found.value;
      var after := users[i := users[i].(isOnline := true, lastSeen := Some(now))];
      assert LoginOutcome(users, request, hash, now).1 == after;
      assert forall j :: 0 <= j < |after| ==> after[j].id == users[j].id && after[j].uniqueId == users[j].uniqueId;
    }
  }

  /** What the handler receives. */
  datatype Event = Event(
    httpMethod: Option<string>,
    action: Option<string>,
    register: RegisterRequest,
    login: LoginRequest,
    userId: Option<int>)

  /** The `users` table and its id sequence, updated in place by the
      handler. */
  class AccountTable {
    var users: seq<UserRow>
    var lastId: nat

    ghost predicate Valid()
      reads this
    {
      WellFormed(users, lastId)
    }

    constructor ()
      ensures Valid() && users == [] && lastId == 0
    {
      users := [];
      lastId := 0;
    }

    /** `register_user`: validates, then inserts one row unless the
        database reports an integrity error. */
    method RegisterUser(request: RegisterRequest, token: seq<Byte>, hash: string -> string, conflict: Option<string>)
      returns (resp: Response)
      requires Valid() && |token| == 5
      modifies this
      ensures Valid()
      ensures (resp, users) == RegisterOutcome(old(users), old(lastId), request, token, hash, conflict)
      ensures lastId == LastIdAfter(old(lastId), request)
    {
      RegisterKeepsWellFormed(users, lastId, request, token, hash, conflict);
      var username := Strip(request.username.GetOr(""));
      var email := Strip(request.email.GetOr(""));
      var phone := Strip(request.phone.GetOr(""));
      var password := Strip(request.password.GetOr(""));
      if username == "" || password == "" {
        return Response(400, Failure("Username and password are required"));
      }
      if email == "" && phone == "" {
        return Response(400, Failure("Email or phone is required"));
      }
      lastId := lastId + 1;
      if conflict.Some? {
        return Response(409, Failure(ConflictMessage(conflict.value)));
      }
      var row := NewAccount(lastId, request, token, hash);
      users := users + [row];
      resp := Response(201, Registered(PublicView(row)));
    }

    /** `login_user`: finds the account and marks it online. */
    method LoginUser(request: LoginRequest, hash: string -> string, now: int) returns (resp: Response)
      requires Valid()
      modifies this
      ensures Valid()
      ensures (resp, users) == LoginOutcome(old(users), request, hash, now) && lastId == old(lastId)
    {
      LoginKeepsWellFormed(users, lastId, request, hash, now);
      var identifier := Strip(request.identifier.GetOr(""));
      var password := Strip(request.password.GetOr(""));
      if identifier == "" || password == "" {
        return Response(400, Failure("Identifier and password are required"));
      }
      var found := FirstMatch(users, identifier, hash(password));
      if found.None? {
        return Response(401, Failure("Invalid credentials"));
      }
      var i := found.value;
      var user := users[i];
      users := users[i := user.(isOnline := true, lastSeen := Some(now))];
      resp := Response(200, SignedIn(PublicView(user)));
    }

    /** `handler`: routes the request and runs the selected operation. */
    method Handle(event: Event, databaseConfigured: bool, token: seq<Byte>, hash: string -> string,
                  conflict: Option<string>, now: int) returns (resp: Response)
      requires Valid() && |token| == 5
      modifies this
      ensures Valid()
      ensures var route := Dispatch(event.httpMethod, event.action, databaseConfigured);
        && (route == Register ==>
              && (resp, users) == RegisterOutcome(old(users), old(lastId), event.register, token, hash, conflict)
              && lastId == LastIdAfter(old(lastId), event.register))
        && (route == Login ==> (resp, users) == LoginOutcome(old(users), event.login, hash, now) && lastId == old(lastId))
        && (route == ReadProfile ==> resp == ProfileOutcome(old(users), event.userId) && users == old(users) && lastId == old(lastId))
        && (route in {Preflight, Unconfigured, Info} ==> resp == FixedResponse(route) && users == old(users) && lastId == old(lastId))
    {
      var route := Dispatch(event.httpMethod, event.action, databaseConfigured);
      match route
      case Register =>
        resp := RegisterUser(event.register, token, hash, conflict);
      case Login =>
        resp := LoginUser(event.login, hash, now);
      case ReadProfile =>
        resp := ProfileOutcome(users, event.userId);
      case _ =>
        resp := FixedResponse(route);
    }
  }
}

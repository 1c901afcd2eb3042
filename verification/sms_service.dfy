/** The verification-code service (backend/sms/index.py): issues six-digit
    codes for a phone number, rate-limited to one per minute and valid for
    five minutes, and checks a submitted code against the newest unverified
    code for that phone, allowing three attempts.

    The `verification_codes` table is a sequence of records in insertion
    order; the serial `id` of a record is its 1-based position. The clock is
    the integer `now` (seconds), and the value drawn by `random.randint` is
    the parameter `draw`. */
module SmsService {
  import opened Wrappers
  import opened Text
  import Numerals

  /** `INTERVAL '1 minute'`, in seconds. */
  const RateLimitWindow: int := 60
  /** `timedelta(minutes=5)`, in seconds. */
  const CodeLifetime: int := 300
  /** Attempts after which a code is locked. */
  const MaxAttempts: nat := 3

  /** One row of `verification_codes`. */
  datatype CodeRecord = CodeRecord(
    phone: string,
    code: string,
    createdAt: int,
    expiresAt: int,
    verified: bool,
    attempts: nat)

  /** The JSON body of a reply. */
  datatype Body =
    | Failure(error: string)
    | CodeSent(message: string, verificationId: nat, devCode: string)
    | PhoneVerified(message: string)
    | Banner(message: string)
    | NoContent

  datatype Response = Response(status: int, body: Body)

  /** The fields of the JSON request body; a missing field is `None`. */
  datatype Request = Request(phone: Option<string>, code: Option<string>)

  /** What the handler receives: the HTTP method, the `action` query
      parameter and the request body. */
  datatype Event = Event(httpMethod: Option<string>, action: Option<string>, request: Request)

  datatype Route = Preflight | Unconfigured | Send | Verify | Info

  /** `handler`: the route taken for a request. `databaseConfigured` is
      whether `DATABASE_URL` is set and non-empty. */
  function Dispatch(httpMethod: Option<string>, action: Option<string>, databaseConfigured: bool): (r: Route)
    ensures r == Preflight <==> httpMethod == Some("OPTIONS")
    ensures r == Unconfigured <==> httpMethod != Some("OPTIONS") && !databaseConfigured
    ensures r == Send <==> databaseConfigured && httpMethod == Some("POST") && action == Some("send")
    ensures r == Verify <==> databaseConfigured && httpMethod == Some("POST") && action == Some("verify")
  {
    var verb := httpMethod.GetOr("GET");
    var act := action.GetOr("");
    if verb == "OPTIONS" then Preflight
    else if !databaseConfigured then Unconfigured
    else if verb == "POST" && act == "send" then Send
    else if verb == "POST" && act == "verify" then Verify
    else Info
  }

  /** The reply of the routes that do not touch the table. */
  function FixedResponse(route: Route): Response
    requires route != Send && route != Verify
  {
    match route
    case Preflight => Response(200, NoContent)
    case Unconfigured => Response(500, Failure("Database connection not configured"))
    case Info => Response(200, Banner("OfChat SMS Verification API"))
  }

  /** `generate_code`: `str(random.randint(100000, 999999))`. */
  function GenerateCode(draw: int): (code: string)
    requires 100000 <= draw <= 999999
    ensures |code| == 6 && AllDigits(code) && code[0] != '0'
    ensures Numerals.DecimalValue(code) == draw
  {
    assert Numerals.Pow10(6) == 1000000;
    Numerals.DecimalLength(draw, 6);
    Numerals.DecimalRoundTrip(draw);
    Numerals.DecimalString(draw)
  }

  /** Some code for `phone` was created less than a minute before `now`. */
  predicate SentRecently(rows: seq<CodeRecord>, phone: string, now: int) {
    exists i :: 0 <= i < |rows| && rows[i].phone == phone && rows[i].createdAt > now - RateLimitWindow
  }

  /** `send_verification_code`: the reply and the table afterwards. */
  function SendOutcome(rows: seq<CodeRecord>, request: Request, now: int, draw: int): (out: (Response, seq<CodeRecord>))
    requires 100000 <= draw <= 999999
    ensures var phone := Strip(request.phone.GetOr(""));
      && out.0.status in {200, 400, 429}
      && (out.0.status == 400 <==> phone == "")
      && (out.0.status == 429 <==> phone != "" && SentRecently(rows, phone, now))
      && (out.0.status != 200 ==> out.1 == rows && out.0.body.Failure?)
      && (out.0.status == 200 ==>
            && |out.1| == |rows| + 1 && out.1[..|rows|] == rows
            && var rec := out.1[|rows|];
            && rec.phone == phone && rec.createdAt == now
            && rec.expiresAt == now + CodeLifetime
            && !rec.verified && rec.attempts == 0
            && |rec.code| == 6 && AllDigits(rec.code) && Numerals.DecimalValue(rec.code) == draw
            && out.0.body.CodeSent? && out.0.body.devCode == rec.code
            && out.0.body.verificationId == |out.1|)
  {
    var phone := Strip(request.phone.GetOr(""));
    if phone == "" then
      (Response(400, Failure("Phone number is required")), rows)
    else if SentRecently(rows, phone, now) then
      (Response(429, Failure("Please wait before requesting a new code")), rows)
    else
      var code := GenerateCode(draw);
      var rec := CodeRecord(phone, code, now, now + CodeLifetime, false, 0);
      (Response(200, CodeSent("Verification code sent to " + phone, |rows| + 1, code)), rows + [rec])
  }

  /** A code for `phone` that has not been verified yet. */
  predicate Pending(rec: CodeRecord, phone: string) {
    rec.phone == phone && !rec.verified
  }

  /** The record `verify_code` selects: `WHERE phone = ... AND verified =
      false ORDER BY created_at DESC LIMIT 1`. Among records created at the
      same instant the later-inserted one is taken. */
  function NewestPending(rows: seq<CodeRecord>, phone: string): (r: Option<nat>)
    ensures r.None? <==> forall j :: 0 <= j < |rows| ==> !Pending(rows[j], phone)
    ensures r.Some? ==>
      && r.value < |rows| && Pending(rows[r.value], phone)
      && (forall j :: 0 <= j < |rows| && Pending(rows[j], phone) ==> rows[j].createdAt <= rows[r.value].createdAt)
      && (forall j :: r.value < j < |rows| && Pending(rows[j], phone) ==> rows[j].createdAt < rows[r.value].createdAt)
  {
    if rows == [] then None
    else
      var last := |rows| - 1;
      var earlier := NewestPending(rows[..last], phone);
      if Pending(rows[last], phone) && (earlier.None? || rows[earlier.value].createdAt <= rows[last].createdAt)
      then Some(last)
      else earlier
  }

  /** The phone of a request, as `verify_code` and `send_verification_code`
      read it. */
  function PhoneOf(request: Request): string {
    Strip(request.phone.GetOr(""))
  }

  /** The code of a request, as `verify_code` reads it. */
  function CodeOf(request: Request): string {
    Strip(request.code.GetOr(""))
  }

  /** The status of checking `code` against the selected record: the
      lockout first, then the expiry, then the comparison. */
  function CheckStatus(rec: CodeRecord, code: string, now: int): (status: int)
    ensures status in {200, 401, 403, 410}
    ensures status == 403 <==> rec.attempts >= MaxAttempts
    ensures status == 410 <==> rec.attempts < MaxAttempts && now > rec.expiresAt
    ensures status == 200 <==> rec.attempts < MaxAttempts && now <= rec.expiresAt && rec.code == code
  {
    if rec.attempts >= MaxAttempts then 403
    else if now > rec.expiresAt then 410
    else if rec.code != code then 401
    else 200
  }

  /** The second half of `verify_code`, on the selected record `i`: the
      lockout and the expiry leave the table as it was; otherwise the
      attempt is counted, and the record is marked verified exactly when
      the code matches. */
  function CheckRecord(rows: seq<CodeRecord>, i: nat, code: string, now: int): (out: (Response, seq<CodeRecord>))
    requires i < |rows|
    ensures out.0.status == CheckStatus(rows[i], code, now)
    ensures out.0.status == 200 <==> out.0.body.PhoneVerified?
    ensures out.0.status in {403, 410} ==> out.1 == rows
    ensures out.0.status == 401 ==> out.1 == rows[i := rows[i].(attempts := rows[i].attempts + 1)]
    ensures out.0.status == 200 ==> out.1 == rows[i := rows[i].(attempts := rows[i].attempts + 1, verified := true)]
  {
    var rec := rows[i];
    if rec.attempts >= MaxAttempts then
      (Response(403, Failure("Too many attempts. Request a new code")), rows)
    else if now > rec.expiresAt then
      (Response(410, Failure("Verification code expired")), rows)
    else
      var counted := rec.(attempts := rec.attempts + 1);
      if rec.code != code then
        (Response(401, Failure("Invalid verification code")), rows[i := counted])
      else
        (Response(200, PhoneVerified("Phone number verified successfully")), rows[i := counted.(verified := true)])
  }

  /** `verify_code`: the reply and the table afterwards. The checks run in
      the handler's order: blank fields, no pending code, then the checks on
      the newest pending record. Only that record can change. */
  function VerifyOutcome(rows: seq<CodeRecord>, request: Request, now: int): (out: (Response, seq<CodeRecord>))
    ensures out.0.status == 200 <==> out.0.body.PhoneVerified?
    ensures out.0.status == 400 <==> PhoneOf(request) == "" || CodeOf(request) == ""
    ensures out.0.status == 404 <==>
      PhoneOf(request) != "" && CodeOf(request) != "" && NewestPending(rows, PhoneOf(request)).None?
    ensures out.0.status in {400, 404} ==> out.1 == rows
    ensures PhoneOf(request) != "" && CodeOf(request) != "" && NewestPending(rows, PhoneOf(request)).Some? ==>
      out == CheckRecord(rows, NewestPending(rows, PhoneOf(request)).value, CodeOf(request), now)
  {
    if PhoneOf(request) == "" || CodeOf(request) == "" then
      (Response(400, Failure("Phone and code are required")), rows)
    else if NewestPending(rows, PhoneOf(request)).None? then
      (Response(404, Failure("No verification code found")), rows)
    else
      CheckRecord(rows, NewestPending(rows, PhoneOf(request)).value, CodeOf(request), now)
  }

  /** The number of verified records. */
  function VerifiedCount(rows: seq<CodeRecord>): nat {
    if rows == [] then 0 else VerifiedCount(rows[..|rows| - 1]) + (if rows[|rows| - 1].verified then 1 else 0)
  }

  lemma {:induction false} VerifiedCountUpdate(rows: seq<CodeRecord>, i: nat, rec: CodeRecord)
    requires i < |rows| && !rows[i].verified && rec.verified
    ensures VerifiedCount(rows[i := rec]) == VerifiedCount(rows) + 1
    decreases |rows|
  {
    var last := |rows| - 1;
    var updated := rows[i := rec];
    if i < last {
      assert updated[..last] == rows[..last][i := rec];
      VerifiedCountUpdate(rows[..last], i, rec);
    } else {
      assert updated[..last] == rows[..last];
    }
  }

  /** A successful check consumes exactly one pending code; every other
      outcome leaves the number of verified codes as it was. */
  lemma SuccessConsumesOneCode(rows: seq<CodeRecord>, request: Request, now: int)
    ensures var out := VerifyOutcome(rows, request, now);
      VerifiedCount(out.1) == VerifiedCount(rows) + (if out.0.status == 200 then 1 else 0)
  {
    var phone, code := PhoneOf(request), CodeOf(request);
    var target := NewestPending(rows, phone);
    if phone != "" && code != "" && target.Some? {
      var i := target.value;
      var out := CheckRecord(rows, i, code, now);
      assert VerifyOutcome(rows, request, now) == out;
      if out.0.status == 200 {
        VerifiedCountUpdate(rows, i, out.1[i]);
      } else if out.0.status == 401 {
        VerifiedCountUnchanged(rows, i, out.1[i]);
      }
    }
  }

  lemma {:induction false} VerifiedCountUnchanged(rows: seq<CodeRecord>, i: nat, rec: CodeRecord)
    requires i < |rows| && rows[i].verified == rec.verified
    ensures VerifiedCount(rows[i := rec]) == VerifiedCount(rows)
    decreases |rows|
  {
    var last := |rows| - 1;
    var updated := rows[i := rec];
    if i < last {
      assert updated[..last] == rows[..last][i := rec];
      VerifiedCountUnchanged(rows[..last], i, rec);
    } else {
      assert updated[..last] == rows[..last];
    }
  }

  /** Right after a successful check of record `i`, no check for any
      phone selects `i` again. */
  lemma VerifiedCodeIsSpent(rows: seq<CodeRecord>, request: Request, now: int, later: string)
    requires VerifyOutcome(rows, request, now).0.status == 200
    ensures var phone := Strip(request.phone.GetOr(""));
      var i := NewestPending(rows, phone).value;
      NewestPending(VerifyOutcome(rows, request, now).1, later) != Some(i)
  {
  }

  /** Every record of `before` is still in `after`, and no verified one
      has been reset: no statement of the handler clears `verified`. */
  predicate StaysVerified(before: seq<CodeRecord>, after: seq<CodeRecord>) {
    && |before| <= |after|
    && forall j :: 0 <= j < |before| && before[j].verified ==> after[j].verified
  }

  /** A send only appends a record. */
  lemma SendKeepsVerified(rows: seq<CodeRecord>, request: Request, now: int, draw: int)
    requires 100000 <= draw <= 999999
    ensures StaysVerified(rows, SendOutcome(rows, request, now, draw).1)
  {
    var out := SendOutcome(rows, request, now, draw);
    if out.0.status == 200 {
      forall j | 0 <= j < |rows|
        ensures out.1[j] == rows[j]
      {
        assert out.1[..|rows|][j] == out.1[j];
      }
    }
  }

  /** A check changes only the attempt counter of the selected record and
      can only set its `verified` flag. */
  lemma VerifyKeepsVerified(rows: seq<CodeRecord>, request: Request, now: int)
    ensures StaysVerified(rows, VerifyOutcome(rows, request, now).1)
  {
    var phone, code := PhoneOf(request), CodeOf(request);
    var target := NewestPending(rows, phone);
    if phone != "" && code != "" && target.Some? {
      var out := CheckRecord(rows, target.value, code, now);
      assert VerifyOutcome(rows, request, now) == out;
    }
  }

  /** A request the handler serves, with its abstract inputs. */
  datatype Call =
    | SendCall(request: Request, now: int, draw: int)
    | VerifyCall(request: Request, now: int)

  /** Every send draws its code from `randint(100000, 999999)`. */
  predicate Drawable(calls: seq<Call>) {
    forall k :: 0 <= k < |calls| && calls[k].SendCall? ==> 100000 <= calls[k].draw <= 999999
  }

  /** One request applied to the table. */
  function Step(rows: seq<CodeRecord>, call: Call): (r: seq<CodeRecord>)
    requires call.SendCall? ==> 100000 <= call.draw <= 999999
    ensures StaysVerified(rows, r)
  {
    match call
    case SendCall(request, now, draw) =>
      SendKeepsVerified(rows, request, now, draw);
      SendOutcome(rows, request, now, draw).1
    case VerifyCall(request, now) =>
      VerifyKeepsVerified(rows, request, now);
      VerifyOutcome(rows, request, now).1
  }

  /** The table after serving `calls` one at a time, in order. */
  function Serve(rows: seq<CodeRecord>, calls: seq<Call>): seq<CodeRecord>
    requires Drawable(calls)
    decreases |calls|
  {
    if calls == [] then rows
    else
      Serve(Step(rows, calls[0]), calls[1..])
  }

  /** However many sends and checks follow, a verified record stays
      verified. */
  lemma {:induction false} ServeKeepsVerified(rows: seq<CodeRecord>, calls: seq<Call>)
    requires Drawable(calls)
    ensures StaysVerified(rows, Serve(rows, calls))
    decreases |calls|
  {
    if calls != [] {
      assert forall k :: 0 <= k < |calls| - 1 ==> calls[1..][k] == calls[k + 1];
      var next := Step(rows, calls[0]);
      ServeKeepsVerified(next, calls[1..]);
    }
  }

  /** A code accepted once is spent for good: after a successful check of
      record `i`, whatever sends and checks follow, no check for any phone
      selects `i` again. */
  lemma SpentCodeStaysSpent(rows: seq<CodeRecord>, request: Request, now: int, calls: seq<Call>, later: string)
    requires VerifyOutcome(rows, request, now).0.status == 200
    requires Drawable(calls)
    ensures var i := NewestPending(rows, PhoneOf(request)).value;
      NewestPending(Serve(VerifyOutcome(rows, request, now).1, calls), later) != Some(i)
  {
    var i := NewestPending(rows, PhoneOf(request)).value;
    var out := VerifyOutcome(rows, request, now);
    assert out == CheckRecord(rows, i, CodeOf(request), now);
    assert out.1[i].verified;
    ServeKeepsVerified(out.1, calls);
  }

  /** The attempt counter never passes the lockout threshold. */
  predicate AttemptsBounded(rows: seq<CodeRecord>) {
    forall j :: 0 <= j < |rows| ==> rows[j].attempts <= MaxAttempts
  }

  lemma VerifyKeepsAttemptsBounded(rows: seq<CodeRecord>, request: Request, now: int)
    requires AttemptsBounded(rows)
    ensures AttemptsBounded(VerifyOutcome(rows, request, now).1)
  {
    var phone, code := PhoneOf(request), CodeOf(request);
    var target := NewestPending(rows, phone);
    if phone != "" && code != "" && target.Some? {
      var out := CheckRecord(rows, target.value, code, now);
      assert VerifyOutcome(rows, request, now) == out;
      if out.0.status in {200, 401} {
        assert rows[target.value].attempts < MaxAttempts;
      }
    }
  }

  lemma SendKeepsAttemptsBounded(rows: seq<CodeRecord>, request: Request, now: int, draw: int)
    requires 100000 <= draw <= 999999
    requires AttemptsBounded(rows)
    ensures AttemptsBounded(SendOutcome(rows, request, now, draw).1)
  {
  }

  /** Round trip: a code that was just issued is accepted when it is
      submitted for the same phone before it expires. The rate limit
      guarantees that the new record is the newest one for the phone. */
  lemma {:induction false} IssuedCodeIsAccepted(rows: seq<CodeRecord>, request: Request, now: int, draw: int, later: int)
    requires 100000 <= draw <= 999999
    requires SendOutcome(rows, request, now, draw).0.status == 200
    requires now <= later <= now + CodeLifetime
    ensures var (sent, rows') := SendOutcome(rows, request, now, draw);
      VerifyOutcome(rows', Request(request.phone, Some(sent.body.devCode)), later).0.status == 200
  {
    var (sent, rows') := SendOutcome(rows, request, now, draw);
    var phone := Strip(request.phone.GetOr(""));
    var code := sent.body.devCode;
    var n := |rows|;
    forall j | 0 <= j < n && Pending(rows'[j], phone)
      ensures rows'[j].createdAt < rows'[n].createdAt
    {
      assert rows'[j] == rows[j];
      assert !(rows[j].phone == phone && rows[j].createdAt > now - RateLimitWindow);
    }
    assert rows'[..n] == rows;
    assert Pending(rows'[n], phone);
    assert NewestPending(rows', phone) == Some(n);
    StripKeepsDigits(code);
  }

  /** What the table keeps true across every operation. */
  predicate WellFormed(rows: seq<CodeRecord>) {
    forall j :: 0 <= j < |rows| ==>
      && rows[j].attempts <= MaxAttempts
      && rows[j].expiresAt == rows[j].createdAt + CodeLifetime
      && |rows[j].code| == 6 && AllDigits(rows[j].code)
  }

  /** A check changes only the attempt counter and the verified flag, so
      it keeps every record well formed. */
  lemma VerifyKeepsWellFormed(rows: seq<CodeRecord>, request: Request, now: int)
    requires WellFormed(rows)
    ensures WellFormed(VerifyOutcome(rows, request, now).1)
  {
    var phone, code := PhoneOf(request), CodeOf(request);
    var target := NewestPending(rows, phone);
    if phone != "" && code != "" && target.Some? {
      var out := CheckRecord(rows, target.value, code, now);
      assert VerifyOutcome(rows, request, now) == out;
      if out.0.status in {200, 401} {
        assert rows[target.value].attempts < MaxAttempts;
      }
    }
  }

  /** The `verification_codes` table, updated in place by the handler. */
  class CodeTable {
    var rows: seq<CodeRecord>

    ghost predicate Valid()
      reads this
    {
      WellFormed(rows)
    }

    constructor ()
      ensures Valid() && rows == []
    {
      rows := [];
    }

    /** `send_verification_code`: inserts one record unless the phone is
        blank or a code was sent to it in the last minute. */
    method SendVerificationCode(request: Request, now: int, draw: int) returns (resp: Response)
      requires Valid()
      requires 100000 <= draw <= 999999
      modifies this
      ensures Valid()
      ensures (resp, rows) == SendOutcome(old(rows), request, now, draw)
    {
      var phone := Strip(request.phone.GetOr(""));
      if phone == "" {
        return Response(400, Failure("Phone number is required"));
      }
      if SentRecently(rows, phone, now) {
        return Response(429, Failure("Please wait before requesting a new code"));
      }
      var code := GenerateCode(draw);
      var id := |rows| + 1;
      rows := rows + [CodeRecord(phone, code, now, now + CodeLifetime, false, 0)];
      resp := Response(200, CodeSent("Verification code sent to " + phone, id, code));
    }

    /** `verify_code`: counts an attempt on the newest pending record and
        marks it verified when the code matches. */
    method VerifyCode(request: Request, now: int) returns (resp: Response)
      requires Valid()
      modifies this
      ensures Valid()
      ensures (resp, rows) == VerifyOutcome(old(rows), request, now)
    {
      VerifyKeepsWellFormed(rows, request, now);
      var phone := Strip(request.phone.GetOr(""));
      var code := Strip(request.code.GetOr(""));
      if phone == "" || code == "" {
        return Response(400, Failure("Phone and code are required"));
      }
      var found := NewestPending(rows, phone);
      if found.None? {
        return Response(404, Failure("No verification code found"));
      }
      var i := found.value;
      assert VerifyOutcome(rows, request, now) == CheckRecord(rows, i, code, now);
      var rec := rows[i];
      if rec.attempts >= MaxAttempts {
        return Response(403, Failure("Too many attempts. Request a new code"));
      }
      if now > rec.expiresAt {
        return Response(410, Failure("Verification code expired"));
      }
      ghost var before := rows;
      var counted := rec.(attempts := rec.attempts + 1);
      rows := rows[i := counted];
      if rec.code != code {
        resp := Response(401, Failure("Invalid verification code"));
        assert (resp, rows) == VerifyOutcome(before, request, now);
        return;
      }
      rows := rows[i := counted.(verified := true)];
      assert rows == before[i := counted.(verified := true)];
      resp := Response(200, PhoneVerified("Phone number verified successfully"));
      assert (resp, rows) == VerifyOutcome(before, request, now);
    }

    /** `handler`: routes the request and runs the selected operation. */
    method Handle(event: Event, databaseConfigured: bool, now: int, draw: int) returns (resp: Response)
      requires Valid()
      requires 100000 <= draw <= 999999
      modifies this
      ensures Valid()
      ensures var route := Dispatch(event.httpMethod, event.action, databaseConfigured);
        && (route == Send ==> (resp, rows) == SendOutcome(old(rows), event.request, now, draw))
        && (route == Verify ==> (resp, rows) == VerifyOutcome(old(rows), event.request, now))
        && (route != Send && route != Verify ==> resp == FixedResponse(route) && rows == old(rows))
    {
      var route := Dispatch(event.httpMethod, event.action, databaseConfigured);
      match route
      case Send =>
        resp := SendVerificationCode(event.request, now, draw);
      case Verify =>
        resp := VerifyCode(event.request, now);
      case _ =>
        resp := FixedResponse(route);
    }
  }
}

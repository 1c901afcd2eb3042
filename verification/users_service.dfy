/** The users service (backend/users/index.py): searches accounts by public
    id or name, adds a contact, and lists a user's contacts newest first.

    The `users` table is read only here; the `contacts` table is a sequence
    of rows in insertion order, with at most one row per (user, contact)
    pair (the ON CONFLICT target). The clock is the integer `now`. */
module UsersService {
  import opened Wrappers
  import opened Text
  import opened Accounts

  /** `LIMIT 20` of the name searches. */
  const SearchLimit: nat := 20

  /** The search `search_users` runs for a query. */
  datatype Query =
    | ByUniqueId(uniqueId: string)    // `#ABC`: exact public id, upper-cased
    | ByUsername(fragment: string)    // `@al`: username contains, any case
    | ByNameOrId(fragment: string)    // otherwise: username or public id contains, any case

  /** The columns a search returns for each account. */
  datatype Card = Card(
    id: nat,
    uniqueId: string,
    username: string,
    avatarUrl: Option<string>,
    bio: Option<string>,
    isOnline: bool)

  datatype ContactRow = ContactRow(userId: int, contactUserId: int, addedAt: int)

  /** The columns `get_contacts` returns for each contact. */
  datatype ContactEntry = ContactEntry(
    id: nat,
    uniqueId: string,
    username: string,
    avatarUrl: Option<string>,
    bio: Option<string>,
    isOnline: bool,
    lastSeen: Option<int>,
    addedAt: int)

  datatype Body =
    | Failure(error: string)
    | Found(users: seq<Card>, count: nat)
    | ContactSaved(message: string)
    | ContactList(contacts: seq<ContactEntry>, count: nat)
    | Banner(message: string)
    | NoContent

  datatype Response = Response(status: int, body: Body)

  datatype Route = Preflight | Unconfigured | SearchUsers | SaveContact | ListContacts | Info

  /** `handler`: the route taken for a request. */
  function Dispatch(httpMethod: Option<string>, action: Option<string>, databaseConfigured: bool): (r: Route)
    ensures r == Preflight <==> httpMethod == Some("OPTIONS")
    ensures r == Unconfigured <==> httpMethod != Some("OPTIONS") && !databaseConfigured
    ensures r == SearchUsers <==> databaseConfigured && httpMethod.GetOr("GET") == "GET" && action == Some("search")
    ensures r == SaveContact <==> databaseConfigured && httpMethod == Some("POST") && action == Some("add_contact")
    ensures r == ListContacts <==> databaseConfigured && httpMethod.GetOr("GET") == "GET" && action == Some("contacts")
  {
    var verb := httpMethod.GetOr("GET");
    var act := action.GetOr("");
    if verb == "OPTIONS" then Preflight
    else if !databaseConfigured then Unconfigured
    else if verb == "GET" && act == "search" then SearchUsers
    else if verb == "POST" && act == "add_contact" then SaveContact
    else if verb == "GET" && act == "contacts" then ListContacts
    else Info
  }

  /** The query `search_users` runs for the `q` parameter; `None` when the
      parameter is blank. */
  function Classify(q: Option<string>): (r: Option<Query>)
    ensures var s := Strip(q.GetOr(""));
      && (r.None? <==> s == "")
      && (r.Some? && s[0] == '#' ==> r.value == ByUniqueId(Upper(s[1..])))
      && (r.Some? && s[0] == '@' ==> r.value == ByUsername(s[1..]))
      && (r.Some? && s[0] != '#' && s[0] != '@' ==> r.value == ByNameOrId(s))
  {
    var s := Strip(q.GetOr(""));
    if s == "" then None
    else if s[0] == '#' then Some(ByUniqueId(Upper(s[1..])))
    else if s[0] == '@' then Some(ByUsername(s[1..]))
    else Some(ByNameOrId(s))
  }

  /** The WHERE clause of the query. */
  predicate Hits(row: UserRow, query: Query) {
    match query
    case ByUniqueId(id) => row.uniqueId == id
    case ByUsername(fragment) => ContainsIgnoringCase(row.username, fragment)
    case ByNameOrId(fragment) =>
      ContainsIgnoringCase(row.username, fragment) || ContainsIgnoringCase(row.uniqueId, fragment)
  }

  /** All rows the WHERE clause keeps, in table order. */
  function Matching(users: seq<UserRow>, query: Query): (r: seq<UserRow>)
    ensures |r| <= |users|
    ensures forall x :: x in r ==> x in users && Hits(x, query)
    ensures forall j :: 0 <= j < |users| && Hits(users[j], query) ==> users[j] in r
  {
    if users == [] then []
    else (if Hits(users[0], query) then [users[0]] else []) + Matching(users[1..], query)
  }

  /** One step of `MatchingCounts`, over plain sequences. */
  lemma HitsCountsStep(x: UserRow, tail: seq<UserRow>, rest: seq<UserRow>, query: Query)
    requires forall y :: multiset(rest)[y] == if Hits(y, query) then multiset(tail)[y] else 0
    ensures forall y :: multiset((if Hits(x, query) then [x] else []) + rest)[y]
                         == if Hits(y, query) then multiset([x] + tail)[y] else 0
  {
    var head := if Hits(x, query) then [x] else [];
    assert multiset(head + rest) == multiset(head) + multiset(rest);
    assert multiset([x] + tail) == multiset([x]) + multiset(tail);
  }

  /** Each matching row is returned as many times as it occurs in the
      table, once for distinct rows, and no other row is returned. */
  lemma {:induction false} MatchingCounts(users: seq<UserRow>, query: Query)
    ensures forall x :: multiset(Matching(users, query))[x] == if Hits(x, query) then multiset(users)[x] else 0
  {
    if users != [] {
      MatchingCounts(users[1..], query);
      HitsCountsStep(users[0], users[1..], Matching(users[1..], query), query);
      assert users == [users[0]] + users[1..];
    }
  }

  /** The WHERE clause works row by row, so the matches of a table are the
      matches of its first part followed by those of the rest: table order
      is kept. */
  lemma {:induction false} MatchingAppend(a: seq<UserRow>, b: seq<UserRow>, query: Query)
    ensures Matching(a + b, query) == Matching(a, query) + Matching(b, query)
  {
    if a != [] {
      assert (a + b)[0] == a[0];
      assert (a + b)[1..] == a[1..] + b;
      var head := if Hits(a[0], query) then [a[0]] else [];
      assert Matching(a + b, query) == head + Matching(a[1..] + b, query);
      assert Matching(a, query) == head + Matching(a[1..], query);
      MatchingAppend(a[1..], b, query);
      Associates(head, Matching(a[1..], query), Matching(b, query));
    } else {
      assert a + b == b;
    }
  }

  /** The rows a search returns. The name searches stop after 20 rows; with
      no ORDER BY, the model keeps the first 20 in table order. */
  function Select(users: seq<UserRow>, query: Query): (r: seq<UserRow>)
    ensures forall x :: x in r ==> x in users && Hits(x, query)
    ensures !query.ByUniqueId? ==> |r| <= SearchLimit
    ensures query.ByUniqueId? || |Matching(users, query)| <= SearchLimit ==>
      forall j :: 0 <= j < |users| && Hits(users[j], query) ==> users[j] in r
    ensures query.ByUniqueId? ==> r == Matching(users, query)
    ensures !query.ByUniqueId? ==>
      && |r| == (if |Matching(users, query)| <= SearchLimit then |Matching(users, query)| else SearchLimit)
      && r == Matching(users, query)[..|r|]
  {
    var all := Matching(users, query);
    if query.ByUniqueId? then all else Take(all, SearchLimit)
  }

  function CardOf(row: UserRow): Card {
    Card(row.id, row.uniqueId, row.username, row.avatarUrl, row.bio, row.isOnline)
  }

  function Cards(rows: seq<UserRow>): (r: seq<Card>)
    ensures |r| == |rows|
    ensures forall k :: 0 <= k < |rows| ==> r[k] == CardOf(rows[k])
  {
    seq(|rows|, k requires 0 <= k < |rows| => CardOf(rows[k]))
  }

  /** `search_users`: the reply for the `q` parameter. */
  function SearchOutcome(users: seq<UserRow>, q: Option<string>): (resp: Response)
    ensures resp.status in {200, 400}
    ensures resp.status == 400 <==> IsBlank(q.GetOr(""))
    ensures resp.status == 200 ==>
      && resp.body.Found?
      && resp.body.count == |resp.body.users|
      && resp.body.users == Cards(Select(users, Classify(q).value))
  {
    match Classify(q)
    case None => Response(400, Failure("Search query is required"))
    case Some(query) =>
      var found := Cards(Select(users, query));
      Response(200, Found(found, |found|))
  }

  /** A `#` search finds exactly the accounts whose public id is the rest
      of the query in upper case, so letters typed in lower case still
      match. */
  lemma UniqueIdSearchIsExact(users: seq<UserRow>, rest: string, row: UserRow)
    requires rest == "" || !IsSpace(rest[|rest| - 1])
    requires row in users
    ensures var r := Select(users, Classify(Some("#" + rest)).value);
      row in r <==> row.uniqueId == Upper(rest)
  {
    var s := "#" + rest;
    assert s[|s| - 1] == if rest == "" then '#' else rest[|rest| - 1];
    StripKeepsTrimmed(s);
    assert s[1..] == rest;
  }

  /** Falsy in Python: missing, or the number 0. */
  predicate Falsy(x: Option<int>) {
    x.None? || x.value == 0
  }

  predicate Linked(contacts: seq<ContactRow>, user: int, contact: int) {
    exists j :: 0 <= j < |contacts| && contacts[j].userId == user && contacts[j].contactUserId == contact
  }

  /** The ON CONFLICT (user_id, contact_user_id) constraint. */
  predicate UniquePairs(contacts: seq<ContactRow>) {
    forall i, j :: 0 <= i < j < |contacts| ==>
      contacts[i].userId != contacts[j].userId || contacts[i].contactUserId != contacts[j].contactUserId
  }

  /** `add_contact`: the reply and the contacts table afterwards. */
  function AddContactOutcome(contacts: seq<ContactRow>, userId: Option<int>, contactUserId: Option<int>, now: int)
    : (out: (Response, seq<ContactRow>))
    ensures out.0.status in {200, 201, 400}
    ensures out.0.status == 400 <==> Falsy(userId) || Falsy(contactUserId) || userId == contactUserId
    ensures out.0.status != 201 ==> out.1 == contacts
    ensures out.0.status == 201 <==>
      !Falsy(userId) && !Falsy(contactUserId) && userId != contactUserId
      && !Linked(contacts, userId.value, contactUserId.value)
    ensures out.0.status == 201 ==>
      && out.1 == contacts + [ContactRow(userId.value, contactUserId.value, now)]
      && out.0.body == ContactSaved("Contact added successfully")
    ensures out.0.status == 200 ==> out.0.body == ContactSaved("Contact already exists")
    ensures out.0.status != 400 ==> Linked(out.1, userId.value, contactUserId.value)
    ensures UniquePairs(contacts) ==> UniquePairs(out.1)
  {
    if Falsy(userId) || Falsy(contactUserId) then
      (Response(400, Failure("user_id and contact_user_id are required")), contacts)
    else if userId == contactUserId then
      (Response(400, Failure("Cannot add yourself as contact")), contacts)
    else if Linked(contacts, userId.value, contactUserId.value) then
      (Response(200, ContactSaved("Contact already exists")), contacts)
    else
      var row := ContactRow(userId.value, contactUserId.value, now);
      assert (contacts + [row])[|contacts|] == row;
      (Response(201, ContactSaved("Contact added successfully")), contacts + [row])
  }

  /** Adding the same contact twice has the effect of adding it once; the
      second reply reports that the contact already exists. */
  lemma AddContactIdempotent(contacts: seq<ContactRow>, userId: Option<int>, contactUserId: Option<int>, now: int, later: int)
    ensures var first := AddContactOutcome(contacts, userId, contactUserId, now);
      var second := AddContactOutcome(first.1, userId, contactUserId, later);
      && second.1 == first.1
      && (first.0.status != 400 ==> second.0.status == 200)
  {
  }

  /** The JOIN's condition for a contact row of `user`: the row is the
      user's and its contact account exists. */
  predicate Kept(c: ContactRow, users: seq<UserRow>, user: int) {
    c.userId == user && RowWithId(users, c.contactUserId).Some?
  }

  /** The contact rows of `user` that the inner JOIN keeps, those whose
      contact account exists, in table order. */
  function LiveContacts(contacts: seq<ContactRow>, users: seq<UserRow>, user: int): (r: seq<ContactRow>)
    ensures |r| <= |contacts|
    ensures forall c :: c in r <==> c in contacts && Kept(c, users, user)
  {
    if contacts == [] then []
    else
      var c := contacts[0];
      (if Kept(c, users, user) then [c] else [])
        + LiveContacts(contacts[1..], users, user)
  }

  /** One step of `LiveContactsCounts`, over plain sequences. */
  lemma KeptCountsStep(c: ContactRow, tail: seq<ContactRow>, rest: seq<ContactRow>, users: seq<UserRow>, user: int)
    requires forall y :: multiset(rest)[y] == if Kept(y, users, user) then multiset(tail)[y] else 0
    ensures forall y :: multiset((if Kept(c, users, user) then [c] else []) + rest)[y]
                         == if Kept(y, users, user) then multiset([c] + tail)[y] else 0
  {
    var head := if Kept(c, users, user) then [c] else [];
    assert multiset(head + rest) == multiset(head) + multiset(rest);
    assert multiset([c] + tail) == multiset([c]) + multiset(tail);
  }

  /** Each kept contact row appears as many times as in the table, once
      for distinct rows, and no other row appears. */
  lemma {:induction false} LiveContactsCounts(contacts: seq<ContactRow>, users: seq<UserRow>, user: int)
    ensures forall c :: multiset(LiveContacts(contacts, users, user))[c]
                         == if Kept(c, users, user) then multiset(contacts)[c] else 0
  {
    if contacts != [] {
      LiveContactsCounts(contacts[1..], users, user);
      KeptCountsStep(contacts[0], contacts[1..], LiveContacts(contacts[1..], users, user), users, user);
      assert contacts == [contacts[0]] + contacts[1..];
    }
  }

  /** The join keeps the contact rows in table order: the kept rows of a
      table are those of its first part followed by those of the rest. */
  lemma {:induction false} LiveContactsAppend(a: seq<ContactRow>, b: seq<ContactRow>, users: seq<UserRow>, user: int)
    ensures LiveContacts(a + b, users, user) == LiveContacts(a, users, user) + LiveContacts(b, users, user)
  {
    if a != [] {
      assert (a + b)[0] == a[0];
      assert (a + b)[1..] == a[1..] + b;
      var head := if Kept(a[0], users, user) then [a[0]] else [];
      assert LiveContacts(a + b, users, user) == head + LiveContacts(a[1..] + b, users, user);
      assert LiveContacts(a, users, user) == head + LiveContacts(a[1..], users, user);
      LiveContactsAppend(a[1..], b, users, user);
      Associates(head, LiveContacts(a[1..], users, user), LiveContacts(b, users, user));
    } else {
      assert a + b == b;
    }
  }

  /** The selected columns of a joined row: the contact's account and the
      time the contact was added. */
  function EntryOf(u: UserRow, addedAt: int): ContactEntry {
    ContactEntry(u.id, u.uniqueId, u.username, u.avatarUrl, u.bio, u.isOnline, u.lastSeen, addedAt)
  }

  /** `r` holds, position by position, the joined row of each contact row
      in `live`: the contact's account columns and the time it was added. */
  predicate JoinsWith(r: seq<ContactEntry>, live: seq<ContactRow>, users: seq<UserRow>) {
    && |r| == |live|
    && forall k :: 0 <= k < |r| ==>
      && RowWithId(users, live[k].contactUserId).Some?
      && r[k] == EntryOf(RowWithId(users, live[k].contactUserId).value, live[k].addedAt)
  }

  /** The joined rows of `get_contacts` before ordering: one entry for each
      contact row of `user` whose contact account exists, in table order. */
  function Joined(contacts: seq<ContactRow>, users: seq<UserRow>, user: int): (r: seq<ContactEntry>)
    ensures forall e :: e in r ==>
      exists c :: c in contacts && c.userId == user && c.contactUserId == e.id && c.addedAt == e.addedAt
    ensures forall c :: c in contacts && c.userId == user && RowWithId(users, c.contactUserId).Some? ==>
      exists e :: e in r && e.id == c.contactUserId && e.addedAt == c.addedAt
  {
    if contacts == [] then []
    else
      var c := contacts[0];
      var rest := Joined(contacts[1..], users, user);
      if c.userId == user then
        match RowWithId(users, c.contactUserId)
        case None => rest
        case Some(u) =>
          [EntryOf(u, c.addedAt)] + rest
      else rest
  }

  /** Joining one more contact row in front adds its entry in front. */
  lemma JoinsWithCons(e: ContactEntry, r: seq<ContactEntry>, c: ContactRow, live: seq<ContactRow>, users: seq<UserRow>)
    requires JoinsWith(r, live, users)
    requires RowWithId(users, c.contactUserId).Some?
    requires e == EntryOf(RowWithId(users, c.contactUserId).value, c.addedAt)
    ensures JoinsWith([e] + r, [c] + live, users)
  {
    forall k | 0 <= k < |r| + 1
      ensures RowWithId(users, ([c] + live)[k].contactUserId).Some?
      ensures ([e] + r)[k] == EntryOf(RowWithId(users, ([c] + live)[k].contactUserId).value, ([c] + live)[k].addedAt)
    {
      if k > 0 {
        assert ([c] + live)[k] == live[k - 1];
        assert ([e] + r)[k] == r[k - 1];
      }
    }
  }

  /** The joined list has one entry for each contact row of `user` whose
      account exists, in table order, and each entry carries the columns of
      that account and the time the contact was added. */
  lemma {:induction false} JoinedFollowsContacts(contacts: seq<ContactRow>, users: seq<UserRow>, user: int)
    ensures JoinsWith(Joined(contacts, users, user), LiveContacts(contacts, users, user), users)
  {
    if contacts != [] {
      var c := contacts[0];
      JoinedFollowsContacts(contacts[1..], users, user);
      var rest, live := Joined(contacts[1..], users, user), LiveContacts(contacts[1..], users, user);
      if c.userId == user && RowWithId(users, c.contactUserId).Some? {
        var e := EntryOf(RowWithId(users, c.contactUserId).value, c.addedAt);
        assert Joined(contacts, users, user) == [e] + rest;
        assert LiveContacts(contacts, users, user) == [c] + live;
        JoinsWithCons(e, rest, c, live, users);
      } else {
        assert Joined(contacts, users, user) == rest;
        assert LiveContacts(contacts, users, user) == live;
      }
    }
  }

  predicate SortedNewestFirst(s: seq<ContactEntry>) {
    forall i, j :: 0 <= i < j < |s| ==> s[i].addedAt >= s[j].addedAt
  }

  /** An entry no older than every entry of a newest-first list can go in
      front of it. */
  lemma PrependKeepsOrder(x: ContactEntry, tail: seq<ContactEntry>)
    requires SortedNewestFirst(tail)
    requires forall y :: y in tail ==> x.addedAt >= y.addedAt
    ensures SortedNewestFirst([x] + tail)
  {
    var r := [x] + tail;
    forall i, j | 0 <= i < j < |r|
      ensures r[i].addedAt >= r[j].addedAt
    {
      assert r[j] == tail[j - 1];
      if i > 0 {
        assert r[i] == tail[i - 1];
      } else {
        assert tail[j - 1] in tail;
      }
    }
  }

  function InsertByAdded(e: ContactEntry, sorted: seq<ContactEntry>): (r: seq<ContactEntry>)
    requires SortedNewestFirst(sorted)
    ensures forall x :: x in r ==> x == e || x in sorted
    ensures SortedNewestFirst(r)
    ensures multiset(r) == multiset(sorted) + multiset{e}
  {
    if sorted == [] || e.addedAt >= sorted[0].addedAt then
      PrependKeepsOrder(e, sorted);
      [e] + sorted
    else
      var tail := InsertByAdded(e, sorted[1..]);
      assert sorted == [sorted[0]] + sorted[1..];
      assert forall x :: x in sorted[1..] ==> sorted[0].addedAt >= x.addedAt by {
        forall x | x in sorted[1..] ensures sorted[0].addedAt >= x.addedAt {
          var k :| 0 <= k < |sorted[1..]| && sorted[1..][k] == x;
          assert sorted[k + 1] == x;
        }
      }
      PrependKeepsOrder(sorted[0], tail);
      [sorted[0]] + tail
  }

  /** `ORDER BY c.added_at DESC`: the same entries, newest first. */
  function SortNewestFirst(entries: seq<ContactEntry>): (r: seq<ContactEntry>)
    ensures SortedNewestFirst(r)
    ensures multiset(r) == multiset(entries)
  {
    if entries == [] then []
    else
      assert entries == [entries[0]] + entries[1..];
      InsertByAdded(entries[0], SortNewestFirst(entries[1..]))
  }

  /** `get_contacts`: the reply for the `user_id` query parameter (`None`
      when absent or empty). */
  function ContactsOutcome(contacts: seq<ContactRow>, users: seq<UserRow>, userId: Option<int>): (resp: Response)
    ensures resp.status in {200, 400}
    ensures resp.status == 400 <==> userId.None?
    ensures resp.status == 200 ==>
      && resp.body.ContactList?
      && resp.body.count == |resp.body.contacts|
      && SortedNewestFirst(resp.body.contacts)
      && multiset(resp.body.contacts) == multiset(Joined(contacts, users, userId.value))
  {
    if userId.None? then
      Response(400, Failure("user_id is required"))
    else
      var list := SortNewestFirst(Joined(contacts, users, userId.value));
      Response(200, ContactList(list, |list|))
  }

  /** Every listed contact belongs to the requested user. */
  lemma ContactsBelongToUser(contacts: seq<ContactRow>, users: seq<UserRow>, user: int, e: ContactEntry)
    requires e in ContactsOutcome(contacts, users, Some(user)).body.contacts
    ensures exists c :: c in contacts && c.userId == user && c.contactUserId == e.id && c.addedAt == e.addedAt
  {
    var list := ContactsOutcome(contacts, users, Some(user)).body.contacts;
    assert e in multiset(list);
  }

  /** What the handler receives. */
  datatype Event = Event(
    httpMethod: Option<string>,
    action: Option<string>,
    q: Option<string>,
    userId: Option<int>,
    contactUserId: Option<int>)

  /** The `contacts` table, updated in place by the handler. */
  class ContactBook {
    var contacts: seq<ContactRow>

    ghost predicate Valid()
      reads this
    {
      UniquePairs(contacts)
    }

    constructor ()
      ensures Valid() && contacts == []
    {
      contacts := [];
    }

    /** `add_contact`: inserts the pair unless it is already present. */
    method AddContact(userId: Option<int>, contactUserId: Option<int>, now: int) returns (resp: Response)
      requires Valid()
      modifies this
      ensures Valid()
      ensures (resp, contacts) == AddContactOutcome(old(contacts), userId, contactUserId, now)
    {
      if Falsy(userId) || Falsy(contactUserId) {
        return Response(400, Failure("user_id and contact_user_id are required"));
      }
      if userId == contactUserId {
        return Response(400, Failure("Cannot add yourself as contact"));
      }
      if Linked(contacts, userId.value, contactUserId.value) {
        return Response(200, ContactSaved("Contact already exists"));
      }
      contacts := contacts + [ContactRow(userId.value, contactUserId.value, now)];
      resp := Response(201, ContactSaved("Contact added successfully"));
    }

    /** `handler`: routes the request; `users` is the users table. */
    method Handle(event: Event, databaseConfigured: bool, users: seq<UserRow>, now: int) returns (resp: Response)
      requires Valid()
      modifies this
      ensures Valid()
      ensures var route := Dispatch(event.httpMethod, event.action, databaseConfigured);
        && (route == SaveContact ==> (resp, contacts) == AddContactOutcome(old(contacts), event.userId, event.contactUserId, now))
        && (route != SaveContact ==> contacts == old(contacts))
        && (route == SearchUsers ==> resp == SearchOutcome(users, event.q))
        && (route == ListContacts ==> resp == ContactsOutcome(contacts, users, event.userId))
        && (route == Preflight ==> resp == Response(200, NoContent))
        && (route == Unconfigured ==> resp == Response(500, Failure("Database connection not configured")))
        && (route == Info ==> resp == Response(200, Banner("OfChat Users API")))
    {
      var route := Dispatch(event.httpMethod, event.action, databaseConfigured);
      match route
      case Preflight =>
        resp := Response(200, NoContent);
      case Unconfigured =>
        resp := Response(500, Failure("Database connection not configured"));
      case SearchUsers =>
        resp := SearchOutcome(users, event.q);
      case SaveContact =>
        resp := AddContact(event.userId, event.contactUserId, now);
      case ListContacts =>
        resp := ContactsOutcome(contacts, users, event.userId);
      case Info =>
        resp := Response(200, Banner("OfChat Users API"));
    }
  }
}

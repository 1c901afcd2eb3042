/** The `users` table shared by the account service and the users service,
    and the public view of an account that the client keeps as its
    session. */
module Accounts {
  import opened Wrappers

  /** One row of `users`. `passwordHash` is the hex digest the account
      service stores; `lastSeen` is `None` until the first login. */
  datatype UserRow = UserRow(
    id: nat,
    uniqueId: string,
    username: string,
    email: Option<string>,
    phone: Option<string>,
    passwordHash: string,
    avatarUrl: Option<string>,
    bio: Option<string>,
    isOnline: bool,
    lastSeen: Option<int>)

  /** The `user` object of a register or login reply, which the client
      stores as its session. */
  datatype PublicUser = PublicUser(
    id: nat,
    uniqueId: string,
    username: string,
    email: Option<string>,
    phone: Option<string>)

  function PublicView(row: UserRow): (u: PublicUser)
    ensures u.id == row.id && u.uniqueId == row.uniqueId && u.username == row.username
    ensures u.email == row.email && u.phone == row.phone
  {
    PublicUser(row.id, row.uniqueId, row.username, row.email, row.phone)
  }

  /** The row with the given serial id, if any (`WHERE id = %s`). */
  function RowWithId(users: seq<UserRow>, id: int): (r: Option<UserRow>)
    ensures r.None? <==> forall j :: 0 <= j < |users| ==> users[j].id != id
    ensures r.Some? ==> r.value in users && r.value.id == id
  {
    if users == [] then None
    else if users[0].id == id then Some(users[0])
    else RowWithId(users[1..], id)
  }
}

/** The client's session (src/App.tsx): the signed-in user held by the
    root component and persisted in the browser's `localStorage` under one
    key. `localStorage` is a map from keys to stored users; the JSON
    encoding of the stored value is left abstract. */
module SessionStore {
  import opened Wrappers
  import opened Accounts

  /** The only storage key the session uses. */
  const UserKey: string := "ofchat_user"

  /** The screen shown at `/`. */
  datatype View = Messenger(user: PublicUser) | SignInScreen

  /** Two stores that agree on every key other than `UserKey`. */
  ghost predicate SameOtherKeys(a: map<string, PublicUser>, b: map<string, PublicUser>) {
    forall k :: k != UserKey ==> (k in a <==> k in b) && (k in a ==> a[k] == b[k])
  }

  /** `localStorage.setItem('ofchat_user', ...)`. */
  function Saved(storage: map<string, PublicUser>, u: PublicUser): (r: map<string, PublicUser>)
    ensures UserKey in r && r[UserKey] == u
    ensures SameOtherKeys(storage, r)
  {
    storage[UserKey := u]
  }

  /** `localStorage.removeItem('ofchat_user')`. */
  function Cleared(storage: map<string, PublicUser>): (r: map<string, PublicUser>)
    ensures UserKey !in r
    ensures SameOtherKeys(storage, r)
  {
    storage - {UserKey}
  }

  /** What the mount-time effect restores from the store: the saved user,
      or nothing when the key is absent. */
  function Restored(storage: map<string, PublicUser>): (r: Option<PublicUser>)
    ensures r.Some? <==> UserKey in storage
    ensures r.Some? ==> r.value == storage[UserKey]
  {
    if UserKey in storage then Some(storage[UserKey]) else None
  }

  /** The route element for `/`: the messenger for a signed-in user, the
      sign-in screen otherwise. */
  function ViewFor(user: Option<PublicUser>): (v: View)
    ensures v.Messenger? <==> user.Some?
    ensures v.Messenger? ==> v.user == user.value
  {
    match user
    case Some(u) => Messenger(u)
    case None => SignInScreen
  }

  /** A user saved on sign-in is restored on the next start. */
  lemma SavedSessionIsRestored(storage: map<string, PublicUser>, u: PublicUser)
    ensures Restored(Saved(storage, u)) == Some(u)
    ensures ViewFor(Restored(Saved(storage, u))) == Messenger(u)
  {
  }

  /** After a logout the next start shows the sign-in screen, and logging
      out twice leaves the same store as logging out once. */
  lemma ClearedSessionStaysCleared(storage: map<string, PublicUser>)
    ensures Restored(Cleared(storage)) == None
    ensures ViewFor(Restored(Cleared(storage))) == SignInScreen
    ensures Cleared(Cleared(storage)) == Cleared(storage)
  {
  }

  /** The root component's state and the browser store it writes. */
  class App {
    var user: Option<PublicUser>
    var storage: map<string, PublicUser>

    /** The first render: no user yet, whatever the store holds. */
    constructor (stored: map<string, PublicUser>)
      ensures user == None && storage == stored
    {
      user := None;
      storage := stored;
    }

    /** The mount-time effect: adopts the saved user when there is one and
        otherwise leaves `user` as it was. */
    method Mount()
      modifies this
      ensures storage == old(storage)
      ensures UserKey in storage ==> user == Restored(storage)
      ensures UserKey !in storage ==> user == old(user)
    {
      if UserKey in storage {
        user := Some(storage[UserKey]);
      }
    }

    /** `handleAuthSuccess`: holds the user and persists it. */
    method HandleAuthSuccess(u: PublicUser)
      modifies this
      ensures user == Some(u)
      ensures storage == Saved(old(storage), u)
    {
      user := Some(u);
      storage := storage[UserKey := u];
    }

    /** `handleLogout`: forgets the user and removes it from the store. */
    method HandleLogout()
      modifies this
      ensures user == None
      ensures storage == Cleared(old(storage))
    {
      user := None;
      storage := storage - {UserKey};
    }

    /** The screen the router shows for the current state. */
    function CurrentView(): (v: View)
      reads this
      ensures v.Messenger? <==> user.Some?
    {
      ViewFor(user)
    }
  }

  /** A session that signs in and then starts afresh over the same store
      comes back signed in as the same user. */
  method SignInThenRestart(stored: map<string, PublicUser>, u: PublicUser) returns (restarted: App)
    ensures restarted.user == Some(u)
    ensures restarted.CurrentView() == Messenger(u)
  {
    var app := new App(stored);
    app.Mount();
    app.HandleAuthSuccess(u);
    restarted := new App(app.storage);
    restarted.Mount();
  }

  /** A session that logs out and then starts afresh over the same store
      shows the sign-in screen. */
  method LogOutThenRestart(stored: map<string, PublicUser>) returns (restarted: App)
    ensures restarted.user == None
    ensures restarted.CurrentView() == SignInScreen
  {
    var app := new App(stored);
    app.Mount();
    app.HandleLogout();
    restarted := new App(app.storage);
    restarted.Mount();
  }
}

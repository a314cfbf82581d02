/** The session hook web/src/hooks/useAuth.js: login and register through
    the API (their replies are parameters), logout, and the
    `isAuthenticated` test over local storage. */
module Auth {
  import opened Wrappers
  import opened LocalStorage
  import opened Api

  /** `response.data` of `/auth/token/`. */
  datatype TokenPair = TokenPair(access: string, refresh: string)

  const LoginFallback := "Login failed"
  const RegisterFallback := "Registration failed"

  /** The storage after a successful login as `username`. */
  function SignedIn(items: map<string, Item>, tokens: TokenPair, username: string): (r: map<string, Item>)
    ensures r.Keys == items.Keys + {AccessToken, RefreshToken, UserKey}
    ensures r[AccessToken] == Text(tokens.access) && r[RefreshToken] == Text(tokens.refresh)
    ensures r[UserKey] == User(username)
    ensures forall k :: k in items && k !in {AccessToken, RefreshToken, UserKey} ==> r[k] == items[k]
  {
    items[AccessToken := Text(tokens.access)][RefreshToken := Text(tokens.refresh)][UserKey := User(username)]
  }

  /** The storage after logout: the three session keys are gone and every
      other entry is kept. */
  function SignedOut(items: map<string, Item>): (r: map<string, Item>)
    ensures r.Keys == items.Keys - {AccessToken, RefreshToken, UserKey}
    ensures forall k :: k in r ==> r[k] == items[k]
  {
    items - {AccessToken, RefreshToken, UserKey}
  }

  /** `!!localStorage.getItem('access_token')` */
  predicate Authenticated(items: map<string, Item>)
  {
    Truthy(Get(items, AccessToken))
  }

  /** The hook's test holds exactly when an access token is stored and it
      is not empty. */
  lemma AuthenticatedMeans(items: map<string, Item>)
    ensures Authenticated(items) <==>
      AccessToken in items && !(items[AccessToken].Text? && items[AccessToken].text == "")
  {
  }

  /** A login with a non-empty access token authenticates the session;
      logout ends it, whatever was stored before. */
  lemma SessionLifecycle(items: map<string, Item>, tokens: TokenPair, username: string)
    ensures Authenticated(SignedIn(items, tokens, username)) <==> tokens.access != ""
    ensures !Authenticated(SignedOut(items))
    ensures !Authenticated(SignedOut(SignedIn(items, tokens, username)))
  {
  }

  lemma SignedOutIsAnonymous(items: map<string, Item>)
    ensures !Authenticated(SignedOut(items))
  {
  }

  /** Logging out twice is logging out once, and a logout after a login
      leaves exactly the entries that were there apart from the session. */
  lemma SignedOutAfterSignedIn(items: map<string, Item>, tokens: TokenPair, username: string)
    ensures SignedOut(SignedOut(items)) == SignedOut(items)
    ensures SignedOut(SignedIn(items, tokens, username)) == SignedOut(items)
  {
    assert SignedOut(SignedIn(items, tokens, username)).Keys == SignedOut(items).Keys;
  }

  class Session {
    var loading: bool
    var error: Option<string>

    constructor ()
      ensures !loading && error.None?
    {
      loading := false;
      error := None;
    }

    /** `login`: on success the tokens and the user are stored and the data
        returned; on failure storage is untouched, the error shows the
        server's detail or "Login failed", and the rejection is rethrown.
        Either way `loading` ends false. */
    method Login(storage: Storage, username: string, reply: Reply<TokenPair>) returns (r: Reply<TokenPair>)
      modifies this, storage
      ensures r == reply && !loading
      ensures reply.Success? ==> storage.items == SignedIn(old(storage.items), reply.value, username) && error.None?
      ensures reply.Failure? ==> storage.items == old(storage.items) && error == Some(ErrorText(reply.error, LoginFallback))
    {
      loading := true;
      error := None;
      if reply.Success? {
        storage.SetItem(AccessToken, Text(reply.value.access));
        storage.SetItem(RefreshToken, Text(reply.value.refresh));
        storage.SetItem(UserKey, User(username));
      } else {
        error := Some(ErrorText(reply.error, LoginFallback));
      }
      loading := false;
      r := reply;
    }

    /** `register`: storage is not touched at all; a failure records the
        server's detail or "Registration failed" and is rethrown. */
    method Register<T>(reply: Reply<T>) returns (r: Reply<T>)
      modifies this
      ensures r == reply && !loading
      ensures reply.Success? ==> error.None?
      ensures reply.Failure? ==> error == Some(ErrorText(reply.error, RegisterFallback))
    {
      loading := true;
      error := None;
      if reply.Failure? {
        error := Some(ErrorText(reply.error, RegisterFallback));
      }
      loading := false;
      r := reply;
    }

    /** `logout` */
    method Logout(storage: Storage)
      modifies storage
      ensures storage.items == SignedOut(old(storage.items))
      ensures !Authenticated(storage.items)
    {
      storage.RemoveItem(AccessToken);
      storage.RemoveItem(RefreshToken);
      storage.RemoveItem(UserKey);
      SignedOutIsAnonymous(old(storage.items));
    }

    /** `isAuthenticated` */
    function IsAuthenticated(storage: Storage): (b: bool)
      reads storage
      ensures b <==> AccessToken in storage.items && !(storage.items[AccessToken].Text? && storage.items[AccessToken].text == "")
    {
      AuthenticatedMeans(storage.items);
      Authenticated(storage.items)
    }
  }
}

/** The axios client of web/src/api/client.js: the request interceptor that
    attaches the stored access token, and the response interceptor that
    answers a first 401 with a single token refresh and one reissue of the
    request. The refresh call's outcome is a parameter. */
module ApiClient {
  import opened Wrappers
  import opened LocalStorage

  /** An `Authorization: Bearer <token>` header, carrying the stored item
      that is interpolated into it. */
  datatype Bearer = Bearer(token: Item)

  /** The header `Authorization` a request goes out with. */
  function Authorized(header: Option<Bearer>, items: map<string, Item>): (r: Option<Bearer>)
    ensures Truthy(Get(items, AccessToken)) ==> r == Some(Bearer(items[AccessToken]))
    ensures !Truthy(Get(items, AccessToken)) ==> r == header
  {
    var token := Get(items, AccessToken);
    if Truthy(token) then Some(Bearer(token.value)) else header
  }

  /** What the response interceptor decides for a failed response: refresh
      only on a 401 to a request not yet retried. */
  predicate ShouldRefresh(status: Option<int>, retry: bool)
  {
    status == Some(401) && !retry
  }

  /** The interceptor's answer to a failed response. */
  datatype Outcome =
    | Reissued              // `return client(originalRequest)`
    | Rejected(toLogin: bool) // `Promise.reject(error)`, after sending the
                            // browser to /login when the refresh failed

  /** The whole effect of the interceptor on a failed response: the new
      storage, the new `_retry` mark, the refresh token sent if a refresh
      was made, the new default header and the outcome. */
  datatype ErrorStep = ErrorStep(
    items: map<string, Item>,
    retry: bool,
    refreshSent: Option<Option<Item>>,
    defaultHeader: Option<Bearer>,
    outcome: Outcome)

  /** `refreshed` is the refresh call's reply: the new access token, or
      `None` when that call failed. */
  function OnError(items: map<string, Item>, retry: bool, defaultHeader: Option<Bearer>,
                   status: Option<int>, refreshed: Option<string>): ErrorStep
  {
    if !ShouldRefresh(status, retry) then
      ErrorStep(items, retry, None, defaultHeader, Rejected(false))
    else if refreshed.Some? then
      ErrorStep(items[AccessToken := Text(refreshed.value)], true, Some(Get(items, RefreshToken)),
                Some(Bearer(Text(refreshed.value))), Reissued)
    else
      ErrorStep(items - {AccessToken, RefreshToken}, true, Some(Get(items, RefreshToken)), defaultHeader, Rejected(true))
  }

  /** Anything but a first 401 is rejected unchanged: no refresh, nothing
      stored, nothing marked. */
  lemma PassThrough(items: map<string, Item>, retry: bool, h: Option<Bearer>, status: Option<int>, refreshed: Option<string>)
    requires !ShouldRefresh(status, retry)
    ensures OnError(items, retry, h, status, refreshed) == ErrorStep(items, retry, None, h, Rejected(false))
  {
  }

  /** A first 401 marks the request and refreshes with the stored refresh
      token. A successful refresh stores the new access token and reissues
      the request; a failed one drops both tokens, keeps every other entry
      (the user record among them) and rejects. */
  lemma FirstUnauthorized(items: map<string, Item>, h: Option<Bearer>, refreshed: Option<string>)
    ensures var e := OnError(items, false, h, Some(401), refreshed);
      e.retry && e.refreshSent == Some(Get(items, RefreshToken)) &&
      (refreshed.Some? ==> e.outcome == Reissued && e.items == items[AccessToken := Text(refreshed.value)] &&
                           e.defaultHeader == Some(Bearer(Text(refreshed.value)))) &&
      (refreshed.None? ==> e.outcome == Rejected(true) && AccessToken !in e.items && RefreshToken !in e.items &&
                           (forall k :: k in items && k != AccessToken && k != RefreshToken ==> k in e.items && e.items[k] == items[k]))
  {
  }

  /** At most one refresh per request: whatever the two responses, a
      request going through the interceptor twice triggers a refresh at
      most once. */
  lemma {:induction false} AtMostOneRefresh(items: map<string, Item>, retry: bool, h: Option<Bearer>,
                                            s1: Option<int>, r1: Option<string>, s2: Option<int>, r2: Option<string>)
    ensures var e1 := OnError(items, retry, h, s1, r1);
      var e2 := OnError(e1.items, e1.retry, e1.defaultHeader, s2, r2);
      !(e1.refreshSent.Some? && e2.refreshSent.Some?)
  {
    var e1 := OnError(items, retry, h, s1, r1);
    assert e1.refreshSent.Some? ==> e1.retry;
  }

  /** The reissued request goes through the request interceptor again and
      so carries the new access token, when it is not empty. */
  lemma ReissueCarriesNewToken(items: map<string, Item>, h: Option<Bearer>, header: Option<Bearer>, token: string)
    requires token != ""
    ensures var e := OnError(items, false, h, Some(401), Some(token));
      Authorized(header, e.items) == Some(Bearer(Text(token)))
  {
  }

  /** The request config the interceptors update in place. */
  class Config {
    var authorization: Option<Bearer>
    var retry: bool

    constructor (authorization: Option<Bearer>)
      ensures this.authorization == authorization && !retry
    {
      this.authorization := authorization;
      retry := false;
    }
  }

  class Client {
    /** `client.defaults.headers.Authorization` */
    var defaultHeader: Option<Bearer>

    constructor ()
      ensures defaultHeader.None?
    {
      defaultHeader := None;
    }

    /** The request interceptor: the bearer header is set exactly when the
        stored access token is truthy; otherwise the config is unchanged. */
    method InterceptRequest(config: Config, storage: Storage)
      modifies config
      ensures config.authorization == Authorized(old(config.authorization), storage.items)
      ensures config.retry == old(config.retry)
    {
      var token := Get(storage.items, AccessToken);
      if Truthy(token) {
        config.authorization := Some(Bearer(token.value));
      }
    }

    /** The response interceptor for a failed response to `config`. */
    method InterceptError(config: Config, storage: Storage, status: Option<int>, refreshed: Option<string>)
      returns (refreshSent: Option<Option<Item>>, outcome: Outcome)
      modifies this, config, storage
      ensures var e := OnError(old(storage.items), old(config.retry), old(defaultHeader), status, refreshed);
        storage.items == e.items && config.retry == e.retry && defaultHeader == e.defaultHeader &&
        refreshSent == e.refreshSent && outcome == e.outcome
      ensures config.authorization == old(config.authorization)
    {
      refreshSent := None;
      outcome := Rejected(false);
      if status == Some(401) && !config.retry {
        config.retry := true;
        var refreshToken := Get(storage.items, RefreshToken);
        refreshSent := Some(refreshToken);
        if refreshed.Some? {
          storage.SetItem(AccessToken, Text(refreshed.value));
          defaultHeader := Some(Bearer(Text(refreshed.value)));
          outcome := Reissued;
        } else {
          storage.RemoveItem(AccessToken);
          storage.RemoveItem(RefreshToken);
          outcome := Rejected(true);
        }
      }
    }
  }
}

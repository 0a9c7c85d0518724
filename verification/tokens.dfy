/** The token cache: one credential triple, refreshed by a password-grant
    exchange when there is no access token or the cached one has expired,
    and written in full to the token file after every successful exchange.
    Time is an integer number of seconds supplied by the caller, and the
    response of the authorization endpoint is an input value. */
module Tokens {
  import opened Wrappers

  /** Token lifetime assumed when the response carries no `expires_in`. */
  const DefaultLifetime: int := 3600

  /** The only status accepted from the authorization endpoint. */
  const StatusOk: int := 200

  /** The cached credential: access token, refresh token and absolute
      expiry time, each `None` until set. */
  datatype TokenState = TokenState(access: Option<string>, refresh: Option<string>, expiry: Option<int>)

  /** The cache at process start, before the token file is read. */
  const NoTokens: TokenState := TokenState(None, None, None)

  /** What the authorization endpoint answers to a password grant: the
      HTTP status and, for a 200 answer, the optional fields of its JSON
      body (an absent field is `None`). */
  datatype Exchange = Exchange(
    status: int,
    accessToken: Option<string>,
    refreshToken: Option<string>,
    expiresIn: Option<int>)

  function Lifetime(ex: Exchange): int {
    ex.expiresIn.GetOr(DefaultLifetime)
  }

  /** The cache must be refreshed before a request: no access token, or the
      current time is strictly past the expiry. A missing expiry next to an
      access token counts as stale. */
  predicate IsStale(st: TokenState, now: int) {
    st.access.None? || st.expiry.None? || now > st.expiry.value
  }

  /** Every cache an exchange produces carries an expiry next to its
      access token, so the comparison with the expiry is always defined. */
  predicate WellFormed(st: TokenState) {
    st.access.Some? ==> st.expiry.Some?
  }

  /** Outcome of one exchange: the new cache, the token handed back to the
      caller, and the triple written to the token file (`None`: no write). */
  datatype Acquired = Acquired(state: TokenState, token: Option<string>, saved: Option<TokenState>)

  /** One password-grant exchange at time `now` answered by `ex`. */
  function AcquireToken(st: TokenState, now: int, ex: Exchange): (a: Acquired)
    ensures a.saved.Some? <==> ex.status == StatusOk
    ensures a.saved.Some? ==> a.saved.value == a.state
    ensures ex.status == StatusOk ==>
      && a.state.access == ex.accessToken
      && a.state.refresh == ex.refreshToken
      && a.state.expiry.Some?
      && a.state.expiry.value - now == Lifetime(ex)
      && a.token == ex.accessToken
    ensures ex.status != StatusOk ==> a.state == st && a.token.None?
    ensures WellFormed(st) ==> WellFormed(a.state)
  {
    if ex.status == StatusOk then
      var granted := TokenState(ex.accessToken, ex.refreshToken, Some(now + Lifetime(ex)));
      Acquired(granted, granted.access, Some(granted))
    else
      Acquired(st, None, None)
  }

  /** A token obtained at `now` is reused up to and including its expiry
      and refreshed at any later time. */
  lemma FreshTokenLifetime(st: TokenState, now: int, ex: Exchange, later: int)
    requires ex.status == StatusOk && ex.accessToken.Some?
    requires now <= later
    ensures IsStale(AcquireToken(st, now, ex).state, later) <==> later > now + Lifetime(ex)
  {
  }

  /** The bearer token a request is sent with: the cached access token when
      it is present and non-empty, otherwise none (the request is not sent). */
  function Bearer(st: TokenState): (b: Option<string>)
    ensures b.Some? <==> st.access.Some? && st.access.value != ""
    ensures b.Some? ==> b == st.access
  {
    match st.access
    case Some(t) => if t != "" then Some(t) else None
    case None => None
  }

  /** What happens to the cache before one authenticated request. */
  datatype Prepared = Prepared(state: TokenState, refreshed: bool, bearer: Option<string>, saved: Option<TokenState>)

  /** The token handling in front of one authenticated request at `now`;
      `ex` is what the authorization endpoint answers if it is asked. */
  function PrepareRequest(st: TokenState, now: int, ex: Exchange): (p: Prepared)
    ensures p.refreshed <==> IsStale(st, now)
    ensures !p.refreshed ==> p.state == st && p.saved.None?
    ensures p.saved.Some? <==> p.refreshed && ex.status == StatusOk
    ensures p.refreshed ==> p.state == AcquireToken(st, now, ex).state && p.saved == AcquireToken(st, now, ex).saved
    ensures p.bearer.Some? <==> p.state.access.Some? && p.state.access.value != ""
    ensures p.bearer.Some? ==> p.bearer == p.state.access
    ensures WellFormed(st) ==> WellFormed(p.state)
  {
    if IsStale(st, now) then
      var a := AcquireToken(st, now, ex);
      Prepared(a.state, true, Bearer(a.state), a.saved)
    else
      Prepared(st, false, Bearer(st), None)
  }

  /** A failed refresh does not stop the request: it goes out with the
      expired token still in the cache. */
  lemma StaleTokenUsedAfterFailedRefresh(t: string, refresh: Option<string>, expiry: int, now: int, ex: Exchange)
    requires t != "" && now > expiry && ex.status != StatusOk
    ensures var p := PrepareRequest(TokenState(Some(t), refresh, Some(expiry)), now, ex);
      p.refreshed && p.bearer == Some(t) && p.saved.None?
  {
  }

  /** The run fetches jobs and then repositories. When the first request
      obtained a non-empty token, the second request, made no later than
      that token's expiry, reuses it without contacting the endpoint. */
  lemma SecondRequestReusesToken(st: TokenState, now1: int, ex1: Exchange, now2: int, ex2: Exchange)
    requires ex1.status == StatusOk && ex1.accessToken.Some? && ex1.accessToken.value != ""
    requires IsStale(st, now1)
    requires now1 <= now2 <= now1 + Lifetime(ex1)
    ensures var p1 := PrepareRequest(st, now1, ex1);
      var p2 := PrepareRequest(p1.state, now2, ex2);
      p1.bearer == ex1.accessToken && !p2.refreshed && p2.bearer == ex1.accessToken
  {
  }

  /** A value of the JSON token file. */
  datatype Json = JNull | JString(s: string) | JNumber(n: int)

  const AccessKey: string := "access_token"
  const RefreshKey: string := "refresh_token"
  const ExpiryKey: string := "token_expiry"

  function EncodeString(x: Option<string>): Json {
    match x
    case Some(s) => JString(s)
    case None => JNull
  }

  function EncodeNumber(x: Option<int>): Json {
    match x
    case Some(n) => JNumber(n)
    case None => JNull
  }

  /** A string field of the file; absent or non-string values read as none. */
  function DecodeString(file: map<string, Json>, key: string): Option<string> {
    if key in file && file[key].JString? then Some(file[key].s) else None
  }

  /** A numeric field of the file; absent or non-numeric values read as none. */
  function DecodeNumber(file: map<string, Json>, key: string): Option<int> {
    if key in file && file[key].JNumber? then Some(file[key].n) else None
  }

  /** Reads the token file. When it does not exist the cache keeps `st`;
      otherwise all three fields are replaced by what the file holds,
      whatever the cache held before. */
  function LoadTokens(file: Option<map<string, Json>>, st: TokenState): (r: TokenState)
    ensures file.None? ==> r == st
    ensures file.Some? && AccessKey in file.value && file.value[AccessKey].JString? ==>
      r.access == Some(file.value[AccessKey].s)
    ensures file.Some? && (AccessKey !in file.value || !file.value[AccessKey].JString?) ==> r.access.None?
    ensures file.Some? && RefreshKey in file.value && file.value[RefreshKey].JString? ==>
      r.refresh == Some(file.value[RefreshKey].s)
    ensures file.Some? && (RefreshKey !in file.value || !file.value[RefreshKey].JString?) ==> r.refresh.None?
    ensures file.Some? && ExpiryKey in file.value && file.value[ExpiryKey].JNumber? ==>
      r.expiry == Some(file.value[ExpiryKey].n)
    ensures file.Some? && (ExpiryKey !in file.value || !file.value[ExpiryKey].JNumber?) ==> r.expiry.None?
  {
    match file
    case None => st
    case Some(f) => TokenState(DecodeString(f, AccessKey), DecodeString(f, RefreshKey), DecodeNumber(f, ExpiryKey))
  }

  /** The contents written to the token file: all three fields, always. */
  function SaveTokens(st: TokenState): (file: map<string, Json>)
    ensures file.Keys == {AccessKey, RefreshKey, ExpiryKey}
    ensures forall before :: LoadTokens(Some(file), before) == st
  {
    map[AccessKey := EncodeString(st.access),
        RefreshKey := EncodeString(st.refresh),
        ExpiryKey := EncodeNumber(st.expiry)]
  }

  /** The run starts from the token file: a token saved by a successful
      exchange is read back identically by the next run, so that run
      reuses it until it expires. */
  lemma SavedTokenSurvivesRestart(st: TokenState, now: int, ex: Exchange, later: int, ex2: Exchange)
    requires ex.status == StatusOk && ex.accessToken.Some? && ex.accessToken.value != ""
    requires now <= later <= now + Lifetime(ex)
    ensures var a := AcquireToken(st, now, ex);
      var restarted := LoadTokens(Some(SaveTokens(a.saved.value)), NoTokens);
      restarted == a.state && PrepareRequest(restarted, later, ex2) == Prepared(a.state, false, ex.accessToken, None)
  {
  }

  /** A refused exchange writes nothing and returns no token. */
  lemma RefusedExchangeWritesNothing(st: TokenState, now: int, ex: Exchange)
    requires ex.status != StatusOk
    ensures AcquireToken(st, now, ex) == Acquired(st, None, None)
  {
  }
}

/**
 * The HTTP handlers of handlers.go other than the websocket session: login,
 * refresh, the listing of active connections and the /users dispatch. The
 * user store and bcrypt are collaborators passed in as functions.
 */
module Handlers {
  import opened Wrappers
  import opened Decimal
  import opened Store
  import opened Tokens
  import opened Registry

  const StatusBadRequest: int := 400
  const StatusUnauthorized: int := 401
  const StatusNotFound: int := 404
  const StatusMethodNotAllowed: int := 405
  const StatusInternalServerError: int := 500

  /** The part of a stored user the core reads. */
  datatype User = User(id: int, passwordHash: string)

  /** svc.GetUserByID: None when it returns an error (unknown user or store failure). */
  type UserLookup = Int64 -> Option<User>
  /** bcrypt.CompareHashAndPassword(hash, password) == nil. */
  type PasswordCheck = (string, string) -> bool

  /** What a handler writes back. */
  datatype Reply =
    | HttpError(status: int)
    | LoginTokens(accessToken: string, refreshToken: string)   // {"access_token", "refresh_token"}
    | AccessToken(accessToken: string)                         // {"access_token"}
    | Panicked                                                 // the `sub` claim is not a number

  /** The reply for a freshly signed access token: the token, or 500 when signing failed. */
  function AccessReply(signed: Result<string>): (r: Reply)
    ensures r.AccessToken? <==> signed.Ok?
    ensures signed.Ok? ==> r.accessToken == signed.value
    ensures signed.Err? ==> r == HttpError(StatusInternalServerError)
  {
    if signed.Ok? then AccessToken(signed.value) else HttpError(StatusInternalServerError)
  }

  /** The login credentials are accepted: a numeric id, a non-empty password that matches the stored hash. */
  predicate Authenticated(id: string, password: string, users: UserLookup, passwordMatches: PasswordCheck) {
    Atoi(id).Some? && password != "" && users(Atoi(id).value).Some?
    && passwordMatches(users(Atoi(id).value).value.passwordHash, password)
  }

  /**
   * HandleLogin: reject a non-numeric id (500), then an empty password
   * (400), then an unknown user (401), then a wrong password (401); sign an
   * access and a refresh token (500 when signing fails), record the
   * refresh token (500 when the store fails), and only then reply with
   * both tokens.
   */
  method HandleLogin(id: string, password: string, now: int, users: UserLookup, passwordMatches: PasswordCheck,
                     sign: Signer, md5: Hasher, store: KeyValueStore)
      returns (reply: Reply)
    modifies store
    ensures store.reachable == old(store.reachable)
    ensures Atoi(id).None? ==> reply == HttpError(StatusInternalServerError)
    ensures Atoi(id).Some? && password == "" ==> reply == HttpError(StatusBadRequest)
    ensures Atoi(id).Some? && password != "" && users(Atoi(id).value).None? ==> reply == HttpError(StatusUnauthorized)
    ensures Atoi(id).Some? && password != "" && users(Atoi(id).value).Some? && !Authenticated(id, password, users, passwordMatches) ==>
              reply == HttpError(StatusUnauthorized)
    ensures Authenticated(id, password, users, passwordMatches) ==>
              var uid := Atoi(id).value;
              var access, refresh := GenerateToken(sign, uid, now), GenerateRefreshToken(sign, uid, now);
              if access.Err? || refresh.Err? then reply == HttpError(StatusInternalServerError)
              else if refresh.value != "" && !store.reachable then reply == HttpError(StatusInternalServerError)
              else reply == LoginTokens(access.value, refresh.value)
    ensures reply.LoginTokens? ==> Authenticated(id, password, users, passwordMatches)
    ensures reply.LoginTokens? && reply.refreshToken != "" ==>
              store.entries == old(store.entries)[md5(reply.refreshToken) := Entry("1", now + RefreshTokenExpiration)]
    ensures !(reply.LoginTokens? && reply.refreshToken != "") ==> store.entries == old(store.entries)
  {
    var userID := Atoi(id);
    if userID.None? {
      return HttpError(StatusInternalServerError);
    }
    if password == "" {
      return HttpError(StatusBadRequest);
    }
    var user := users(userID.value);
    if user.None? {
      return HttpError(StatusUnauthorized);
    }
    if !passwordMatches(user.value.passwordHash, password) {
      return HttpError(StatusUnauthorized);
    }
    var accessToken := GenerateToken(sign, userID.value, now);
    if accessToken.Err? {
      return HttpError(StatusInternalServerError);
    }
    var refreshToken := GenerateRefreshToken(sign, userID.value, now);
    if refreshToken.Err? {
      return HttpError(StatusInternalServerError);
    }
    var rErr := AddRefreshToken(store, md5, refreshToken.value, now);
    if rErr.Some? {
      return HttpError(StatusInternalServerError);
    }
    return LoginTokens(accessToken.value, refreshToken.value);
  }

  /**
   * HandleRefreshToken: reject a token validateJWT refuses (500), then a
   * store failure (500), then a token the store does not honour (401);
   * otherwise sign a new access token for the same subject. The refresh
   * token itself is neither rotated nor revoked.
   */
  method HandleRefreshToken(refreshToken: string, now: int, verify: Verifier, sign: Signer, md5: Hasher,
                            store: KeyValueStore)
      returns (reply: Reply)
    ensures verify(refreshToken, now).Err? ==> reply == HttpError(StatusInternalServerError)
    ensures verify(refreshToken, now).Ok? && refreshToken != "" && !store.reachable ==>
              reply == HttpError(StatusInternalServerError)
    ensures verify(refreshToken, now).Ok? && (refreshToken == "" || (store.reachable && !Recorded(store.entries, md5, refreshToken, now))) ==>
              reply == HttpError(StatusUnauthorized)
    ensures verify(refreshToken, now).Ok? && refreshToken != "" && store.reachable && Recorded(store.entries, md5, refreshToken, now) ==>
              var sub := verify(refreshToken, now).value.sub;
              reply == if sub.None? then Panicked else AccessReply(GenerateToken(sign, sub.value, now))
  {
    var claims := verify(refreshToken, now);
    if claims.Err? {
      return HttpError(StatusInternalServerError);
    }
    var isUserAuth := ValidateRefreshToken(store, md5, refreshToken, now);
    if isUserAuth.Err? {
      return HttpError(StatusInternalServerError);
    }
    if !isUserAuth.value {
      return HttpError(StatusUnauthorized);
    }
    if claims.value.sub.None? {
      return Panicked;
    }
    var accessToken := GenerateToken(sign, claims.value.sub.value, now);
    if accessToken.Err? {
      return HttpError(StatusInternalServerError);
    }
    return AccessToken(accessToken.value);
  }

  /**
   * Logging in and then refreshing with the refresh token obtained: while
   * the refresh lifetime lasts, the refresh yields a new access token for
   * the same user (when its ID survives the float64 round trip);
   * afterwards it never does.
   */
  method LoginThenRefresh(id: string, password: string, loginTime: int, refreshTime: int,
                          users: UserLookup, passwordMatches: PasswordCheck,
                          sign: Signer, verify: Verifier, md5: Hasher, store: KeyValueStore)
      returns (login: Reply, refresh: Reply)
    requires Sound(sign, verify) && store.reachable && loginTime <= refreshTime
    modifies store
    ensures login.LoginTokens? <==>
              Authenticated(id, password, users, passwordMatches)
              && GenerateToken(sign, Atoi(id).value, loginTime).Ok?
              && GenerateRefreshToken(sign, Atoi(id).value, loginTime).Ok?
    ensures login.LoginTokens? && refreshTime < loginTime + RefreshTokenExpiration && ExactInFloat64(Atoi(id).value) ==>
              refresh == AccessReply(GenerateToken(sign, Atoi(id).value, refreshTime))
    ensures login.LoginTokens? && refreshTime >= loginTime + RefreshTokenExpiration ==> !refresh.AccessToken?
  {
    login := HandleLogin(id, password, loginTime, users, passwordMatches, sign, md5, store);
    if !login.LoginTokens? {
      refresh := HttpError(StatusUnauthorized);
      return;
    }
    ghost var uid := Atoi(id).value;
    ghost var c := RefreshClaims(uid, loginTime);
    assert sign(c).Ok? && sign(c).value == login.refreshToken;
    RecordedUntilExpiry(old(store.entries), md5, login.refreshToken, loginTime, refreshTime);
    refresh := HandleRefreshToken(login.refreshToken, refreshTime, verify, sign, md5, store);
  }

  /**
   * An access token is not a refresh token: after a login, presenting the
   * access token to the refresh endpoint within its hour is refused with
   * 401 unless the store already honoured its digest, because the login
   * recorded only the refresh token's digest.
   */
  method LoginThenRefreshWithAccessToken(id: string, password: string, loginTime: int, refreshTime: int,
                                         users: UserLookup, passwordMatches: PasswordCheck,
                                         sign: Signer, verify: Verifier, md5: Hasher, store: KeyValueStore)
      returns (login: Reply, refresh: Reply)
    requires Sound(sign, verify) && store.reachable && loginTime <= refreshTime
    modifies store
    ensures login.LoginTokens? <==>
              Authenticated(id, password, users, passwordMatches)
              && GenerateToken(sign, Atoi(id).value, loginTime).Ok?
              && GenerateRefreshToken(sign, Atoi(id).value, loginTime).Ok?
    ensures login.LoginTokens? && refreshTime < loginTime + AccessTokenExpiration && ExactInFloat64(Atoi(id).value)
            && md5(login.accessToken) != md5(login.refreshToken) ==>
              (refresh == HttpError(StatusUnauthorized) <==> !Recorded(old(store.entries), md5, login.accessToken, refreshTime))
  {
    login := HandleLogin(id, password, loginTime, users, passwordMatches, sign, md5, store);
    if !login.LoginTokens? {
      refresh := HttpError(StatusUnauthorized);
      return;
    }
    ghost var uid := Atoi(id).value;
    if refreshTime < loginTime + AccessTokenExpiration && ExactInFloat64(uid) && md5(login.accessToken) != md5(login.refreshToken) {
      ghost var c := AccessClaims(uid, loginTime);
      assert sign(c).Ok? && sign(c).value == login.accessToken && c.iat <= refreshTime < c.exp;
      ghost var r := RefreshClaims(uid, loginTime);
      assert sign(r).Ok? && sign(r).value == login.refreshToken && r.iat <= loginTime < r.exp;
      RecordingIsPerDigest(old(store.entries), md5, login.refreshToken, login.accessToken, loginTime, refreshTime);
    }
    refresh := HandleRefreshToken(login.accessToken, refreshTime, verify, sign, md5, store);
  }

  /** What getAllActiveConn sends: the users it resolved, or the id whose lookup failed. */
  datatype Listing =
    | Listed(users: seq<User>, rejected: seq<string>)          // JSON list of users; `rejected` ids are not numeric
    | LookupFailed(failedID: string, rejected: seq<string>)    // GetUserByID failed for `failedID`; nothing encoded

  /**
   * The loop of getAllActiveConn over the first `n` ids of a snapshot, in
   * order: a non-numeric id is reported and skipped, the first failed lookup
   * ends the listing, every other id contributes its user.
   */
  function Resolve(ids: seq<string>, n: nat, users: UserLookup): Listing
    requires n <= |ids|
  {
    if n == 0 then Listed([], []) else Step(Resolve(ids, n - 1, users), ids[n - 1], users)
  }

  /** One id of that loop, after the listing of the ids before it. */
  function Step(before: Listing, id: string, users: UserLookup): Listing {
    if before.LookupFailed? then before
    else if Atoi(id).None? then Listed(before.users, before.rejected + [id])
    else if users(Atoi(id).value).None? then LookupFailed(id, before.rejected)
    else Listed(before.users + [users(Atoi(id).value).value], before.rejected)
  }

  /** The listing of a whole snapshot. */
  function ResolveAll(ids: seq<string>, users: UserLookup): Listing {
    Resolve(ids, |ids|, users)
  }

  /**
   * The status the client sees: the first http.Error sets it and later
   * writes cannot change it, so one non-numeric id makes the whole reply a
   * 400 even though the list is still encoded after it.
   */
  function ListingStatus(l: Listing): (status: int)
    ensures status == StatusBadRequest <==> l.rejected != []
    ensures status == StatusNotFound <==> l.LookupFailed? && l.rejected == []
    ensures status == 200 <==> l.Listed? && l.rejected == []
  {
    if l.rejected != [] then StatusBadRequest else if l.LookupFailed? then StatusNotFound else 200
  }

  /** Every id is accounted for once: resolved, rejected, or (at most one) the failed lookup. */
  lemma {:induction false} ResolveCounts(ids: seq<string>, n: nat, users: UserLookup)
    requires n <= |ids|
    ensures Resolve(ids, n, users).Listed? ==> |Resolve(ids, n, users).users| + |Resolve(ids, n, users).rejected| == n
    ensures Resolve(ids, n, users).LookupFailed? ==>
              Resolve(ids, n, users).failedID in ids[..n] && |Resolve(ids, n, users).rejected| < n
  {
    if n > 0 {
      ResolveCounts(ids, n - 1, users);
      assert ids[..n] == ids[..n - 1] + [ids[n - 1]];
    }
  }

  /** A failed lookup is final: the ids after it change nothing (the handler has returned). */
  lemma {:induction false} ResolveStopsAtFailure(ids: seq<string>, j: nat, k: nat, users: UserLookup)
    requires j <= k <= |ids| && Resolve(ids, j, users).LookupFailed?
    ensures Resolve(ids, k, users) == Resolve(ids, j, users)
    decreases k
  {
    if j < k {
      ResolveStopsAtFailure(ids, j, k - 1, users);
    }
  }

  /** Every id parses as a user number. */
  predicate Numeric(ids: seq<string>) {
    forall i :: 0 <= i < |ids| ==> Atoi(ids[i]).Some?
  }

  /** The user number of a numeric id. */
  function UserNumber(ids: seq<string>, i: nat): Int64
    requires Numeric(ids) && i < |ids|
  {
    Atoi(ids[i]).value
  }

  /** Numeric ids are never rejected, and the listing succeeds exactly when every lookup does. */
  lemma {:induction false} ResolveNumericAccepts(ids: seq<string>, n: nat, users: UserLookup)
    requires Numeric(ids) && n <= |ids|
    ensures Resolve(ids, n, users).rejected == []
    ensures Resolve(ids, n, users).Listed? <==> forall i :: 0 <= i < n ==> users(UserNumber(ids, i)).Some?
  {
    if n > 0 {
      ResolveNumericAccepts(ids, n - 1, users);
      if Resolve(ids, n - 1, users).Listed? && users(UserNumber(ids, n - 1)).Some? {
        forall i | 0 <= i < n
          ensures users(UserNumber(ids, i)).Some?
        {
          if i < n - 1 {
            assert users(UserNumber(ids, i)).Some?;
          }
        }
      }
    }
  }

  /** When no lookup fails, the list holds exactly the users of the ids, in snapshot order. */
  lemma {:induction false} ResolveNumericUsers(ids: seq<string>, n: nat, users: UserLookup)
    requires Numeric(ids) && n <= |ids|
    ensures Resolve(ids, n, users).Listed? ==>
              |Resolve(ids, n, users).users| == n
              && forall i :: 0 <= i < n ==> users(UserNumber(ids, i)) == Some(Resolve(ids, n, users).users[i])
  {
    if n > 0 {
      ResolveNumericUsers(ids, n - 1, users);
    }
  }

  /** The ids HandleWebSocket admits are renderings of user numbers, and those parse back. */
  lemma RenderedIsNumeric(ids: seq<string>, ns: seq<Int64>)
    requires |ids| == |ns| && forall i :: 0 <= i < |ids| ==> ids[i] == Itoa(ns[i])
    ensures Numeric(ids) && forall i :: 0 <= i < |ids| ==> UserNumber(ids, i) == ns[i]
  {
    forall i | 0 <= i < |ids|
      ensures Atoi(ids[i]) == Some(ns[i])
    {
      AtoiOfItoa(ns[i]);
    }
  }

  /** The loop of getAllActiveConn that copies the ids of the pool, in the map's (unspecified) order. */
  method SnapshotIds(pool: Pool) returns (ids: seq<string>)
    ensures |ids| == |pool.clients|
    ensures forall id :: id in ids <==> id in pool.clients
    ensures forall i, j :: 0 <= i < j < |ids| ==> ids[i] != ids[j]
  {
    ids := [];
    var rest := pool.clients.Keys;
    while rest != {}
      invariant rest <= pool.clients.Keys
      invariant forall id :: id in ids <==> id in pool.clients && id !in rest
      invariant forall i, j :: 0 <= i < j < |ids| ==> ids[i] != ids[j]
      invariant |ids| + |rest| == |pool.clients|
      decreases |rest|
    {
      var id :| id in rest;
      ids := ids + [id];
      rest := rest - {id};
    }
  }

  /** getAllActiveConn: the snapshot, then the lookup of every id. */
  method GetAllActiveConn(pool: Pool, users: UserLookup) returns (ids: seq<string>, listing: Listing)
    ensures |ids| == |pool.clients| && (forall id :: id in ids <==> id in pool.clients)
    ensures listing == ResolveAll(ids, users)
  {
    ids := SnapshotIds(pool);
    var userList: seq<User> := [];
    var rejected: seq<string> := [];
    var i := 0;
    while i < |ids|
      invariant 0 <= i <= |ids|
      invariant Resolve(ids, i, users) == Listed(userList, rejected)
    {
      var userID := Atoi(ids[i]);
      if userID.None? {
        rejected := rejected + [ids[i]];
        i := i + 1;
        continue;
      }
      var user := users(userID.value);
      if user.None? {
        listing := LookupFailed(ids[i], rejected);
        ResolveStopsAtFailure(ids, i + 1, |ids|, users);
        return;
      }
      userList := userList + [user.value];
      i := i + 1;
    }
    listing := Listed(userList, rejected);
  }

  /** What HandleGetAllActiveConn answers. */
  datatype ListReply = ListRefused(status: int) | ListAnswered(ids: seq<string>, listing: Listing)

  /** HandleGetAllActiveConn: GET only (405), a token validateJWT accepts (401), then the listing. */
  method HandleGetAllActiveConn(pool: Pool, httpMethod: string, token: string, now: int, verify: Verifier,
                                users: UserLookup)
      returns (reply: ListReply)
    ensures httpMethod != "GET" ==> reply == ListRefused(StatusMethodNotAllowed)
    ensures httpMethod == "GET" && verify(token, now).Err? ==> reply == ListRefused(StatusUnauthorized)
    ensures httpMethod == "GET" && verify(token, now).Ok? ==>
              reply.ListAnswered? && reply.listing == ResolveAll(reply.ids, users)
              && |reply.ids| == |pool.clients| && (forall id :: id in reply.ids <==> id in pool.clients)
  {
    if httpMethod != "GET" {
      return ListRefused(StatusMethodNotAllowed);
    }
    var claims := verify(token, now);
    if claims.Err? {
      return ListRefused(StatusUnauthorized);
    }
    var ids, listing := GetAllActiveConn(pool, users);
    return ListAnswered(ids, listing);
  }

  /** Where HandleUser sends a request. */
  datatype UserRoute = CreateUser | GetUser | UserMethodNotAllowed

  /** HandleUser: POST creates, GET reads, every other method is answered 405. */
  function RouteUser(httpMethod: string): (r: UserRoute)
    ensures r == CreateUser <==> httpMethod == "POST"
    ensures r == GetUser <==> httpMethod == "GET"
  {
    match httpMethod
    case "POST" => CreateUser
    case "GET" => GetUser
    case _ => UserMethodNotAllowed
  }
}

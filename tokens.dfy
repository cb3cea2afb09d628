/**
 * Access and refresh tokens (jwt.go). Signing and verifying a JWT, and the
 * MD5 digest under which a refresh token is recorded, are collaborators
 * passed in as functions; the clock is the `now` argument in Unix seconds.
 */
module Tokens {
  import opened Wrappers
  import opened Decimal
  import opened Store

  /** accessTokenExpiration, one hour, in seconds. */
  const AccessTokenExpiration: int := 1 * 3600
  /** refreshTokenExpiration, seven days, in seconds. */
  const RefreshTokenExpiration: int := 7 * 24 * 3600

  /** The claims this server signs: subject, issued-at and expiry. */
  datatype Claims = Claims(sub: Int64, iat: int, exp: int)

  /**
   * What the handlers read from the claims of a token that validateJWT
   * accepted: the subject as an integer, or None when the `sub` claim is
   * missing or is not a number (then the source's type assertion panics).
   */
  datatype Verified = Verified(sub: Option<Int64>)

  /** JWT signing with the server secret (HS256); it can fail. */
  type Signer = Claims -> Result<string>
  /** validateJWT at a given time: signature, algorithm and expiry checks. */
  type Verifier = (string, int) -> Result<Verified>
  /** utils.GenerateMD5Hash. */
  type Hasher = string -> string

  /** The claims generateToken signs. */
  function AccessClaims(userID: Int64, now: int): (c: Claims)
    ensures c.sub == userID && c.iat == now
    ensures c.exp - c.iat == AccessTokenExpiration == 3600
  {
    Claims(userID, now, now + AccessTokenExpiration)
  }

  /** The claims generateRefreshToken signs. */
  function RefreshClaims(userID: Int64, now: int): (c: Claims)
    ensures c.sub == userID && c.iat == now
    ensures c.exp - c.iat == RefreshTokenExpiration == 604800
  {
    Claims(userID, now, now + RefreshTokenExpiration)
  }

  function GenerateToken(sign: Signer, userID: Int64, now: int): Result<string> {
    sign(AccessClaims(userID, now))
  }

  function GenerateRefreshToken(sign: Signer, userID: Int64, now: int): Result<string> {
    sign(RefreshClaims(userID, now))
  }

  /**
   * The handlers read `sub` back as a float64 before converting it to an
   * integer, so only subjects of magnitude at most 2^53 survive the trip
   * through a token unchanged.
   */
  predicate ExactInFloat64(n: int) {
    -0x20_0000_0000_0000 <= n <= 0x20_0000_0000_0000
  }

  /**
   * The signer and the verifier agree: for a subject that survives the
   * float64 round trip, a signed token is never empty, and it verifies,
   * with its subject, from its issue time until its expiry.
   */
  ghost predicate Sound(sign: Signer, verify: Verifier) {
    forall c: Claims, t: int :: sign(c).Ok? && c.iat <= t < c.exp && ExactInFloat64(c.sub) ==>
      sign(c).value != "" && verify(sign(c).value, t) == Ok(Verified(Some(c.sub)))
  }

  /**
   * Under a sound signer an access token from generateToken admits its user,
   * with the same subject, for exactly the first hour after issue.
   */
  lemma AccessTokenAccepted(sign: Signer, verify: Verifier, userID: Int64, issued: int, now: int)
    requires Sound(sign, verify) && GenerateToken(sign, userID, issued).Ok?
    requires issued <= now < issued + AccessTokenExpiration && ExactInFloat64(userID)
    ensures verify(GenerateToken(sign, userID, issued).value, now) == Ok(Verified(Some(userID)))
  {
    var c := AccessClaims(userID, issued);
    assert sign(c).Ok? && c.iat <= now < c.exp;
  }

  /** A refresh token is honoured when the value stored under its digest is exactly "1". */
  predicate Recorded(entries: map<string, Entry>, md5: Hasher, token: string, now: int) {
    Visible(entries, md5(token), now) == Some("1")
  }

  /**
   * validateRefreshToken: false for the empty token without asking the
   * store, the store's error when it fails, otherwise whether the token is
   * recorded.
   */
  method ValidateRefreshToken(store: KeyValueStore, md5: Hasher, token: string, now: int) returns (r: Result<bool>)
    ensures token == "" ==> r == Ok(false)
    ensures token != "" && !store.reachable ==> r.Err?
    ensures token != "" && store.reachable ==> r == Ok(Recorded(store.entries, md5, token, now))
  {
    if token == "" {
      return Ok(false);
    }
    var hash := md5(token);
    var val := store.Get(hash, now);
    if val.Err? {
      return Err(val.error);
    }
    if val.value == Some("1") {
      return Ok(true);
    }
    return Ok(false);
  }

  /**
   * addRefreshToken: nothing for the empty token; otherwise record "1"
   * under the token's digest for the refresh lifetime, passing on the
   * store's error.
   */
  method AddRefreshToken(store: KeyValueStore, md5: Hasher, token: string, now: int) returns (err: Option<string>)
    modifies store
    ensures store.reachable == old(store.reachable)
    ensures token == "" ==> err.None? && store.entries == old(store.entries)
    ensures token != "" ==> (err.None? <==> store.reachable)
    ensures token != "" ==>
              store.entries == if store.reachable
                               then old(store.entries)[md5(token) := Entry("1", now + RefreshTokenExpiration)]
                               else old(store.entries)
  {
    if token == "" {
      return None;
    }
    var hash := md5(token);
    err := store.Set(hash, "1", RefreshTokenExpiration, now);
    if err.Some? {
      return err;
    }
    return None;
  }

  /**
   * Store round trip: once a token is recorded at `written`, it is honoured
   * at `now` exactly when the refresh lifetime has not elapsed.
   */
  lemma RecordedUntilExpiry(entries: map<string, Entry>, md5: Hasher, token: string, written: int, now: int)
    ensures Recorded(entries[md5(token) := Entry("1", written + RefreshTokenExpiration)], md5, token, now)
        <==> now < written + RefreshTokenExpiration
  {
    WriteThenRead(entries, md5(token), "1", RefreshTokenExpiration, written, now);
  }

  /**
   * Recording is per digest: recording one token leaves whether any token
   * with a different digest is honoured exactly as it was.
   */
  lemma RecordingIsPerDigest(entries: map<string, Entry>, md5: Hasher, token: string, other: string,
                             written: int, now: int)
    requires md5(other) != md5(token)
    ensures Recorded(entries[md5(token) := Entry("1", written + RefreshTokenExpiration)], md5, other, now)
        <==> Recorded(entries, md5, other, now)
  {
    WriteIsLocal(entries, md5(token), md5(other), Entry("1", written + RefreshTokenExpiration), now);
  }

  /** After a successful addRefreshToken, validateRefreshToken accepts the token until it expires. */
  method AddThenValidate(store: KeyValueStore, md5: Hasher, token: string, written: int, now: int)
      returns (added: Option<string>, valid: Result<bool>)
    requires token != "" && store.reachable
    modifies store
    ensures added.None?
    ensures valid == Ok(now < written + RefreshTokenExpiration)
  {
    added := AddRefreshToken(store, md5, token, written);
    RecordedUntilExpiry(old(store.entries), md5, token, written, now);
    valid := ValidateRefreshToken(store, md5, token, now);
  }
}

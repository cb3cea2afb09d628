# chat-go relay core in Dafny

A model of the core of a small Go chat relay, with proofs about it. Clients log in over HTTP and
receive a one-hour access token and a seven-day refresh token. The refresh token is recorded in a
key-value store under its MD5 digest. A client then opens a websocket with its access token. The
server registers the connection in a pool under the decimal rendering of the token's `sub` claim.
It then reads text units of the form `receiverID:payload` and writes each payload to the
connection registered under `receiverID`.

Modules, one per concern, following the source files:

- `Frames` (`frames.dfy`): `splitMessage`, as a scanning method proved equal to a split function.
  Lemmas cover the first-colon split, the round trip and malformed frames.
- `Registry` (`registry.dfy`): `Client`, `Pool` and an abstract `Connection` as classes. The
  connection's `outbox` receives written payloads. Its fixed `health` says whether the websocket
  writer can be obtained and whether the write succeeds. `newPool`, `AddClient`, `RemoveClient` and
  `SendMessage` are methods that update the pool's map and the receiver's outbox in place.
- `Decimal` (`decimal.dfy`): `strconv.Itoa` and `strconv.Atoi` on 64-bit `int`, as the relay uses
  them for client IDs.
- `Store` (`store.dfy`): the key-value store behind `GetRedisData`/`SetRedisData`. It is a map from
  key to (value, expiry) under an abstract clock, and it can be unreachable.
- `Tokens` (`tokens.dfy`): the lifetimes, the claims `generateToken`/`generateRefreshToken` sign,
  `addRefreshToken` and `validateRefreshToken`.
- `Relay` (`relay.dfy`): `HandleWebSocket`, the admission gate and the read loop. The loop consumes
  a finite sequence of reads; an `Err` entry is a read failure.
- `Handlers` (`handlers.dfy`): the other handlers of handlers.go, namely `HandleLogin`,
  `HandleRefreshToken`, `getAllActiveConn`, `HandleGetAllActiveConn` and the `HandleUser` dispatch.

Collaborators whose code is not part of the model are parameters of function type:

- JWT signing (`SignedString` with HS256) is `Signer`.
- `validateJWT` of `jwt.go` is `Verifier`: signature, algorithm and `exp` checks at a given time.
- `utils.GenerateMD5Hash` is `Hasher`.
- `svc.GetUserByID` is `UserLookup`.
- `bcrypt.CompareHashAndPassword` is `PasswordCheck`.
- The websocket handshake is an `Option<Connection>`.
- The clock is an integer argument in Unix seconds.

`Tokens.Sound` states the one assumption that connects signing to verification. It covers only
subjects of magnitude at most 2^53 (`Tokens.ExactInFloat64`), because the handlers read `sub` back
as a float64. Only the scenario lemmas and methods require it.

## Model

| member | source | states |
|---|---|---|
| Frames.ColonFromIsFirst | main.go:145-150 | the scan from position i finds -1 exactly when no ':' follows i, otherwise the position of a ':' with none between i and it |
| Frames.FirstColonIsFirst | main.go:144-150 | the scan finds no index exactly when the message has no ':', otherwise the first ':' |
| Frames.SplitMessage | main.go:142-156 | the loop that stops at the first ':' and cuts only at a positive index returns exactly `Split(message)` |
| Frames.WellFormedIff | main.go:145-152 | two parts come back exactly when the first ':' is at a positive index; the target is then non-empty and holds no ':' |
| Frames.SplitRoundTrip | main.go:151-152 | for a well-formed message, target + ":" + payload is the message, so the payload keeps any later ':' |
| Frames.SplitOfJoin | main.go:151-152 | a non-empty target without ':' joined by ':' to any payload splits back into exactly that target and payload |
| Frames.MalformedFrames | main.go:144-155 | no ':' gives no parts; a leading ':' gives no parts; a single trailing ':' gives the target and an empty payload |
| Frames.LeftOfFirstColon | main.go:145-150 | an index holding ':' with no ':' before it is the one the scan finds |
| Decimal.AtoiMatchesReference | handlers.go:97 | the digit-by-digit parse accepts exactly an optional sign, at least one digit and a value within 64 bits, with that value |
| Decimal.AtoiRejects | handlers.go:97-101 | the empty string, a lone sign and any other non-digit are rejected |
| Decimal.AtoiOfItoa | handlers.go:161-162 | parsing the decimal rendering of any 64-bit integer gives that integer back |
| Decimal.ItoaIsFrameTarget | handlers.go:161-162 | a rendered ID is non-empty and holds no ':', so a frame can address it |
| Registry.WriteError | main.go:70-79 | a connection reports no error exactly when both the writer and the write succeed; a write error is never ClientNotFound |
| Registry.Delivery | main.go:66-81 | ClientNotFound exactly when the receiver is not registered; success exactly when it is registered and its connection is healthy |
| Registry.AbsentReceiverDereferencesNil | main.go:66-70 | as written, an absent receiver is dereferenced; present receivers get the same result as `Delivery` |
| Registry.Pool.constructor | main.go:36-40 | newPool starts with no clients |
| Registry.Pool.AddClient | main.go:43-49 | the pool becomes the old map with `client.id` bound to `client`, replacing any earlier entry, and stays keyed by client ID |
| Registry.Pool.RemoveClient | main.go:52-56 | the pool becomes the old map without `clientID`; other entries are kept and an absent ID changes nothing |
| Registry.Pool.SendMessage | main.go:59-82 | the result is `Delivery`; only the receiver's outbox may change, and it gains exactly `message` on success and nothing otherwise |
| Registry.AddReplaces | main.go:48 | adding two clients under one ID leaves only the second, with no growth in size |
| Registry.RemoveIdempotent | main.go:55 | removing an ID twice is removing it once |
| Registry.RemoveAfterAdd | handlers.go:167-171 | adding a client and then removing its ID leaves every other entry as it was and the ID absent |
| Store.Visible | jwt.go:101 | a key reads back exactly when it is present and unexpired, with its stored value |
| Store.KeyValueStore.Set | jwt.go:117 | on a reachable store the key holds the value until now + ttl; an unreachable store reports an error and keeps its entries |
| Store.KeyValueStore.Get | jwt.go:101-104 | an unreachable store reports an error; otherwise the visible value of the key |
| Store.WriteThenRead | jwt.go:117 | a key written with a time-to-live reads back its value exactly while the time-to-live has not elapsed |
| Store.WriteIsLocal | jwt.go:116-117 | writing one key leaves what every other key reads unchanged |
| Tokens.AccessClaims | jwt.go:74-79 | the access claims carry `sub = userID`, `iat = now` and a lifetime of 3600 seconds |
| Tokens.RefreshClaims | jwt.go:85-90 | the refresh claims carry `sub = userID`, `iat = now` and a lifetime of 604800 seconds |
| Tokens.AccessTokenAccepted | jwt.go:53-83 | under a sound signer a generated access token for a user ID of magnitude at most 2^53 verifies with its subject throughout its first hour |
| Tokens.ValidateRefreshToken | jwt.go:96-110 | the empty token is false without a store read; a store failure is an error; otherwise true exactly when the digest reads "1" |
| Tokens.AddRefreshToken | jwt.go:112-122 | the empty token writes nothing and succeeds; otherwise exactly `md5(token)` is set to "1" for the refresh lifetime, or the store's error is returned and nothing is written |
| Tokens.RecordedUntilExpiry | jwt.go:96-122 | after recording at time w, the token is honoured at time t exactly when t < w + 604800 |
| Tokens.RecordingIsPerDigest | jwt.go:96-122 | recording one token leaves unchanged whether any token with a different digest is honoured |
| Tokens.AddThenValidate | jwt.go:96-122 | on a reachable store, adding then validating succeeds and answers whether the refresh lifetime has not yet elapsed |
| Relay.FrameOfText | handlers.go:196-201 | a text yields at most one frame, exactly when it is well formed, and that frame's target and payload joined by ':' give the text |
| Relay.RoutedStopsAtFailure | handlers.go:180-191 | reads after the first read failure contribute nothing |
| Relay.RoutedInOrder | handlers.go:175-207 | a run of successful reads relays the frames of its first part before those of its second, so read order is kept |
| Relay.DeliveredOnlyToAddressee | handlers.go:201-206 | a connection receives at most one payload per frame, and each comes from a frame whose target routes to that connection |
| Relay.RoutesAfterAdd | handlers.go:163-167 | registering a client routes its ID to its connection and leaves every other route unchanged |
| Relay.RouteText | handlers.go:196-206 | a malformed text writes nothing; a well-formed one writes its payload to the connection its target routes to, if healthy, and nowhere else |
| Relay.ReadLoop | handlers.go:175-207 | every connection of the pool receives, in read order, exactly the payloads addressed to it among the frames read before the first failure; send errors do not stop the loop |
| Relay.HandleWebSocket | handlers.go:143-208 | 401 exactly when validation fails, and no session when the handshake fails or `sub` is not a number; otherwise the client ID is `Itoa(sub)`, frames are relayed through the pool with that ID routed to the new connection, and at the end the ID is removed once and the rest of the pool is unchanged; a connection the new one superseded receives nothing, and when no session starts the handshake connection receives nothing |
| Handlers.AccessReply | handlers.go:279-285 | the reply carries the token exactly when signing succeeds, and is a 500 otherwise |
| Handlers.HandleLogin | handlers.go:210-259 | non-numeric id gives 500, then an empty password 400, then an unknown user 401, then a wrong password 401, then a signing failure 500, then a store failure 500; both tokens come back only for authenticated credentials and only after the refresh token is recorded |
| Handlers.HandleRefreshToken | handlers.go:261-289 | an invalid token gives 500, then a store failure 500, then an unrecorded token 401; otherwise a new access token for the same subject and nothing else; the store is not written |
| Handlers.LoginThenRefresh | handlers.go:210-289 | under a sound signer, a successful login's refresh token yields a new access token for that user (ID of magnitude at most 2^53) while the refresh lifetime lasts, and never afterwards |
| Handlers.LoginThenRefreshWithAccessToken | handlers.go:261-276 | under a sound signer, presenting a fresh login's access token to the refresh endpoint is refused with 401 exactly when its digest was not already recorded, provided it differs from the refresh token's digest |
| Handlers.ListingStatus | handlers.go:94-111 | the status is 400 exactly when some id was not numeric, else 404 exactly when a lookup failed, else 200 |
| Handlers.ResolveCounts | handlers.go:94-108 | every id is listed or rejected once, so the list is never longer than the snapshot; a failed lookup names an id of the snapshot |
| Handlers.ResolveStopsAtFailure | handlers.go:102-106 | once a lookup fails, later ids change nothing |
| Handlers.ResolveNumericAccepts | handlers.go:96-108 | numeric ids are never rejected, and the listing succeeds exactly when every lookup does |
| Handlers.ResolveNumericUsers | handlers.go:96-108 | when the listing succeeds it holds one user per id, namely that id's lookup, in snapshot order |
| Handlers.RenderedIsNumeric | handlers.go:162 | ids rendered by `Itoa` are numeric and parse back to the numbers they were rendered from |
| Handlers.SnapshotIds | handlers.go:88-91 | the snapshot holds every registered ID exactly once and nothing else, in some order |
| Handlers.GetAllActiveConn | handlers.go:84-112 | the listing of the snapshot is `ResolveAll` of it, and the snapshot is the pool's key set |
| Handlers.HandleGetAllActiveConn | handlers.go:114-127 | a method other than GET gives 405, then a token validation failure 401; otherwise the listing of the whole pool |
| Handlers.RouteUser | handlers.go:129-140 | POST goes to createUser, GET to getUser, every other method to 405 |

## Left out

- Websocket transport and HTTP plumbing (`websocket.Accept`, `conn.Reader`, `Writer`, `io.ReadAll`, `http.Error` bodies, JSON encoding, `main`, server timeouts, signal handling): I/O. A handshake is an `Option<Connection>` and reads are a sequence.
- The 100-second read deadline (handlers.go:176) and the 10-second write deadline (main.go:63): timing. A deadline expiry appears only as a read failure or a failing connection.
- The mutex in `Pool` and the goroutine per connection: each pool operation is atomic and a session runs alone. Two sessions of one user can interleave so that the first session's deferred `RemoveClient` deletes the second's entry; a sequential model cannot show that.
- HMAC signing, `jwt.Parse`, MD5 and bcrypt are foreign code: they are function parameters, constrained only by `Tokens.Sound` where a scenario needs it.
- `generateToken` and `generateRefreshToken` read `time.Now()` twice; the model uses one `now` for both `iat` and `exp`.
- `GetRedisData` is not shown. The model reads a missing or expired key as "no value", giving false. A client that reports a missing key as an error would give 500 instead of 401 in `HandleRefreshToken`.
- `GetUserByID` failing, for whatever reason, is `None`: unknown users and database errors are not told apart.
- Handlers.HandleRefreshToken: a verified `sub` claim is an `Option<Int64>`; a non-integral or out-of-range float `sub`, which Go truncates, is not modelled, and a missing or non-numeric one is `Panicked`.
- Relay.HandleWebSocket: running out of reads ends the session like a read failure; the model does not capture a session that never ends.
- Registry.Pool.SendMessage: a failed write writes nothing; a partial write to the socket is not modelled.
- Registry.Pool.SendMessage: a connection's `health` is fixed for its lifetime, so a connection that accepts some writes and then fails (the 10-second write deadline of main.go:63 expiring, or the peer going away) is not modelled.
- Relay.ReadLoop: its promise that each connection receives exactly the payloads addressed to it rests on that fixed `health`; with per-write failures a connection would receive only a subsequence of them.
- Tokens.Sound: it promises the subject back only for user IDs of magnitude at most 2^53; beyond that the float64 conversion of handlers.go:161 and handlers.go:278 rounds the ID, and the model says nothing about which ID comes back.
- Relay.HandleWebSocket: it registers under `Itoa` of whatever subject the verifier returns; that a user ID beyond 2^53 comes back rounded, and could then register under another user's ID, is not modelled.
- `splitMessage` ranges over runes but cuts at byte offsets; strings here are sequences of characters. Since ':' is one byte, the split is the same.
- `getAllActiveConn` after the 400 for a non-numeric id (handlers.go:99-100) goes on with the next id and still writes a JSON body at the end; the model keeps the rejected ids and `ListingStatus` gives the status the client sees, but no body. After the 404 (handlers.go:104-105) it returns and encodes nothing, as `LookupFailed` does.
- `createUser` and `getUser`: profile CRUD against the external database; only the `HandleUser` dispatch to them is modelled.
- `validateTestJWT`, the stale `handleWebSocket` and the duplicated `validateJWT` in main.go (main.go:85-139, main.go:160-222), and the missing `handleUser` it wires up: dead or duplicate code. The jwt.go and handlers.go versions are modelled instead.
- config/ (environment, MySQL and Redis connection with retries) and the empty `service.Service`: bootstrap I/O.

## Findings

| source | as written | input that shows it | evidently intended | confidence | as-written member | corrected member |
|---|---|---|---|---|---|---|
| main.go:66-70 | an absent receiver is only logged; the next line dereferences the missing client's connection | a frame `42:hi` while no client `42` is registered | report the missing receiver as an error and write nothing | not executed | Registry.DeliveryAsWritten, Registry.AbsentReceiverDereferencesNil | Registry.Delivery, Registry.Pool.SendMessage |

/**
 * The websocket session of handlers.go: the admission gate and the read
 * loop that relays each well-formed frame to its target through the pool.
 */
module Relay {
  import opened Wrappers
  import opened Frames
  import opened Decimal
  import opened Registry
  import opened Tokens

  /** One routing instruction: the payload to write to the client `target`. */
  datatype Frame = Frame(target: string, payload: string)

  /** The frame an inbound text carries: one when it is well formed, none otherwise. */
  function FrameOf(m: string): seq<Frame> {
    var k := FirstColon(m);
    if k > 0 then [Frame(m[..k], m[k + 1..])] else []
  }

  /**
   * A text yields a frame exactly when it is well formed, and that frame's
   * target and payload joined by ':' are the text.
   */
  lemma FrameOfText(m: string)
    ensures |FrameOf(m)| <= 1
    ensures |FrameOf(m)| == 1 <==> WellFormed(m)
    ensures WellFormed(m) ==> FrameOf(m) == [Frame(Split(m)[0], Split(m)[1])]
    ensures |FrameOf(m)| == 1 ==>
              var f := FrameOf(m)[0];
              f.target != "" && ':' !in f.target && f.target + ":" + f.payload == m
  {
    if WellFormed(m) {
      SplitRoundTrip(m);
      WellFormedIff(m);
    }
  }

  /**
   * The frames a session hands to SendMessage, in read order, from the
   * `i`-th read on: those of the well-formed texts read before the first
   * read failure.
   */
  function RoutedAt(inbound: seq<Result<string>>, i: nat): seq<Frame>
    requires i <= |inbound|
    decreases |inbound| - i
  {
    if i == |inbound| || inbound[i].Err? then [] else FrameOf(inbound[i].value) + RoutedAt(inbound, i + 1)
  }

  /** The frames a whole session hands to SendMessage. */
  function Routed(inbound: seq<Result<string>>): seq<Frame> {
    RoutedAt(inbound, 0)
  }

  /** What SendMessage writes to `x` for one frame when IDs resolve through `route`. */
  function Payload(f: Frame, route: map<string, Connection>, x: Connection): seq<string> {
    if f.target in route && route[f.target] == x && x.health == Healthy then [f.payload] else []
  }

  /** The payloads written to `x` for the first `n` frames. */
  function DeliveredUpTo(frames: seq<Frame>, n: nat, route: map<string, Connection>, x: Connection): seq<string>
    requires n <= |frames|
  {
    if n == 0 then [] else DeliveredUpTo(frames, n - 1, route, x) + Payload(frames[n - 1], route, x)
  }

  /** The payloads among `frames` that SendMessage writes to `x` when IDs resolve through `route`. */
  function DeliveredTo(frames: seq<Frame>, route: map<string, Connection>, x: Connection): seq<string> {
    DeliveredUpTo(frames, |frames|, route, x)
  }

  lemma {:induction false} DeliveredPrefix(a: seq<Frame>, b: seq<Frame>, k: nat, route: map<string, Connection>, x: Connection)
    requires k <= |a|
    ensures DeliveredUpTo(a + b, k, route, x) == DeliveredUpTo(a, k, route, x)
  {
    if k > 0 {
      DeliveredPrefix(a, b, k - 1, route, x);
      assert (a + b)[k - 1] == a[k - 1];
    }
  }

  lemma {:induction false} DeliveredSuffix(a: seq<Frame>, b: seq<Frame>, m: nat, route: map<string, Connection>, x: Connection)
    requires m <= |b|
    ensures DeliveredUpTo(a + b, |a| + m, route, x) == DeliveredTo(a, route, x) + DeliveredUpTo(b, m, route, x)
  {
    if m == 0 {
      DeliveredPrefix(a, b, |a|, route, x);
    } else {
      DeliveredSuffix(a, b, m - 1, route, x);
      assert (a + b)[|a| + m - 1] == b[m - 1];
      var da, db, p := DeliveredTo(a, route, x), DeliveredUpTo(b, m - 1, route, x), Payload(b[m - 1], route, x);
      assert (da + db) + p == da + (db + p);
    }
  }

  /** Delivery over two runs of frames is delivery over the first, then over the second. */
  lemma DeliveredToAppend(a: seq<Frame>, b: seq<Frame>, route: map<string, Connection>, x: Connection)
    ensures DeliveredTo(a + b, route, x) == DeliveredTo(a, route, x) + DeliveredTo(b, route, x)
  {
    DeliveredSuffix(a, b, |b|, route, x);
  }

  lemma {:induction false} RoutedShift(a: seq<Result<string>>, b: seq<Result<string>>, j: nat)
    requires j <= |b|
    ensures RoutedAt(a + b, |a| + j) == RoutedAt(b, j)
    decreases |b| - j
  {
    if j < |b| {
      assert (a + b)[|a| + j] == b[j];
      RoutedShift(a, b, j + 1);
    }
  }

  lemma {:induction false} RoutedBefore(a: seq<Result<string>>, b: seq<Result<string>>, i: nat)
    requires i <= |a| && forall k :: i <= k < |a| ==> a[k].Ok?
    ensures RoutedAt(a + b, i) == RoutedAt(a, i) + Routed(b)
    decreases |a| - i
  {
    if i == |a| {
      RoutedShift(a, b, 0);
    } else {
      var c := a + b;
      assert c[i] == a[i] && a[i].Ok?;
      RoutedBefore(a, b, i + 1);
      var f, ra, rb := FrameOf(a[i].value), RoutedAt(a, i + 1), Routed(b);
      assert RoutedAt(c, i) == f + RoutedAt(c, i + 1);
      assert RoutedAt(a, i) == f + ra;
      assert f + (ra + rb) == (f + ra) + rb;
    }
  }

  /** A run of successful reads relays, in order, the frames of its first part and then those of its second. */
  lemma RoutedInOrder(a: seq<Result<string>>, b: seq<Result<string>>)
    requires forall i :: 0 <= i < |a| ==> a[i].Ok?
    ensures Routed(a + b) == Routed(a) + Routed(b)
  {
    RoutedBefore(a, b, 0);
  }

  lemma {:induction false} RoutedUntilFailure(c: seq<Result<string>>, before: seq<Result<string>>, i: nat)
    requires |before| < |c| && c[..|before|] == before && c[|before|].Err? && i <= |before|
    ensures RoutedAt(c, i) == RoutedAt(before, i)
    decreases |before| - i
  {
    if i < |before| {
      assert c[i] == c[..|before|][i];
      RoutedUntilFailure(c, before, i + 1);
    }
  }

  /** Reads after the first read failure are never looked at. */
  lemma RoutedStopsAtFailure(before: seq<Result<string>>, e: string, after: seq<Result<string>>)
    ensures Routed(before + [Err(e)] + after) == Routed(before)
  {
    var c := before + [Err(e)] + after;
    assert c[..|before|] == before && c[|before|] == Err(e);
    RoutedUntilFailure(c, before, 0);
  }

  lemma {:induction false} DeliveredUpToAddressee(frames: seq<Frame>, n: nat, route: map<string, Connection>, x: Connection)
    requires n <= |frames|
    ensures |DeliveredUpTo(frames, n, route, x)| <= n
    ensures forall p :: p in DeliveredUpTo(frames, n, route, x) ==>
              exists j :: 0 <= j < n && frames[j].payload == p && frames[j].target in route && route[frames[j].target] == x
  {
    if n > 0 {
      DeliveredUpToAddressee(frames, n - 1, route, x);
    }
  }

  /** Every payload written to `x` is that of a frame addressed to an ID routing to `x`, and at most one write per frame. */
  lemma DeliveredOnlyToAddressee(frames: seq<Frame>, route: map<string, Connection>, x: Connection)
    ensures |DeliveredTo(frames, route, x)| <= |frames|
    ensures forall p :: p in DeliveredTo(frames, route, x) ==>
              exists f :: f in frames && f.payload == p && f.target in route && route[f.target] == x
  {
    DeliveredUpToAddressee(frames, |frames|, route, x);
  }

  /** Admitting `client` routes its ID to its connection and leaves every other route as it was. */
  lemma RoutesAfterAdd(clients: map<string, Client>, client: Client)
    ensures Routes(clients[client.id := client]) == Routes(clients)[client.id := client.conn]
    ensures Routes(clients[client.id := client]).Values <= Routes(clients).Values + {client.conn}
  {
  }

  /**
   * One pass of the read loop of HandleWebSocket over a text it read: skip
   * it when it does not split into two parts, otherwise hand the parts to
   * SendMessage, whatever that reports.
   */
  method RouteText(pool: Pool, text: string)
    modifies Routes(pool.clients).Values
    ensures forall x :: x in Routes(pool.clients).Values ==>
              x.outbox == old(x.outbox) + DeliveredTo(FrameOf(text), Routes(pool.clients), x)
  {
    var parts := SplitMessage(text);
    if |parts| != 2 {
      return;
    }
    var receiverID, msg := parts[0], parts[1];
    assert FrameOf(text) == [Frame(receiverID, msg)];
    var err := pool.SendMessage(receiverID, msg);
    forall x | x in Routes(pool.clients).Values
      ensures DeliveredTo(FrameOf(text), Routes(pool.clients), x) == Payload(Frame(receiverID, msg), Routes(pool.clients), x)
    {
      assert DeliveredUpTo(FrameOf(text), 0, Routes(pool.clients), x) == [];
    }
  }

  /**
   * The read loop of HandleWebSocket: stop at the first read failure and
   * route every text read before it. The pool does not change; each
   * connection it routes to receives the payloads addressed to it, in read
   * order.
   */
  method ReadLoop(pool: Pool, inbound: seq<Result<string>>)
    modifies Routes(pool.clients).Values
    ensures forall x :: x in Routes(pool.clients).Values ==>
              x.outbox == old(x.outbox) + DeliveredTo(Routed(inbound), Routes(pool.clients), x)
  {
    ghost var route := Routes(pool.clients);
    ghost var done: seq<Frame> := [];
    var i := 0;
    while i < |inbound|
      invariant 0 <= i <= |inbound|
      invariant Routed(inbound) == done + RoutedAt(inbound, i)
      invariant forall x :: x in route.Values ==> x.outbox == old(x.outbox) + DeliveredTo(done, route, x)
    {
      if inbound[i].Err? {
        break;
      }
      var text := inbound[i].value;
      ghost var f, rest := FrameOf(text), RoutedAt(inbound, i + 1);
      assert done + (f + rest) == (done + f) + rest;
      RouteText(pool, text);
      forall x | x in route.Values
        ensures x.outbox == old(x.outbox) + DeliveredTo(done + FrameOf(text), route, x)
      {
        DeliveredToAppend(done, FrameOf(text), route, x);
      }
      done := done + FrameOf(text);
      i := i + 1;
    }
    assert done + [] == done;
  }

  datatype SessionOutcome =
    | Unauthorized          // 401 before the websocket handshake
    | HandshakeFailed       // websocket.Accept failed
    | Panicked              // the `sub` claim is not a number
    | Closed(clientID: string)

  /**
   * HandleWebSocket. `handshake` is what websocket.Accept yields (None when
   * it fails) and `inbound` the units read from the connection in order, an
   * Err being a read failure; running out of inbound ends the session like a
   * read failure does.
   */
  method HandleWebSocket(pool: Pool, token: string, now: int, verify: Verifier,
                         handshake: Option<Connection>, inbound: seq<Result<string>>)
      returns (outcome: SessionOutcome)
    requires pool.Valid()
    modifies pool, (if handshake.Some? then {handshake.value} else {}), Routes(pool.clients).Values
    ensures pool.Valid()
    ensures outcome == Unauthorized <==> verify(token, now).Err?
    ensures outcome == HandshakeFailed <==> verify(token, now).Ok? && handshake.None?
    ensures outcome == Panicked <==> verify(token, now).Ok? && handshake.Some? && verify(token, now).value.sub.None?
    ensures !outcome.Closed? ==> pool.clients == old(pool.clients)
    ensures !outcome.Closed? ==> forall x :: x in old(Routes(pool.clients).Values) ==> x.outbox == old(x.outbox)
    ensures outcome.Closed? ==> outcome.clientID == Itoa(verify(token, now).value.sub.value)
    ensures outcome.Closed? ==> pool.clients == old(pool.clients) - {outcome.clientID}
    ensures outcome.Closed? ==>
              var route := old(Routes(pool.clients))[outcome.clientID := handshake.value];
              forall x :: x in route.Values ==> x.outbox == old(x.outbox) + DeliveredTo(Routed(inbound), route, x)
    ensures outcome.Closed? ==>
              var route := old(Routes(pool.clients))[outcome.clientID := handshake.value];
              forall x :: x in old(Routes(pool.clients).Values) && x !in route.Values ==> x.outbox == old(x.outbox)
    ensures !outcome.Closed? && handshake.Some? ==> handshake.value.outbox == old(handshake.value.outbox)
  {
    var claims := verify(token, now);
    if claims.Err? {
      return Unauthorized;
    }
    if handshake.None? {
      return HandshakeFailed;
    }
    var conn := handshake.value;
    if claims.value.sub.None? {
      return Panicked;
    }
    var clientID := Itoa(claims.value.sub.value);
    var client := new Client(clientID, conn);
    RoutesAfterAdd(pool.clients, client);
    RemoveAfterAdd(pool.clients, client);
    pool.AddClient(client);
    ReadLoop(pool, inbound);
    pool.RemoveClient(clientID);
    return Closed(clientID);
  }
}

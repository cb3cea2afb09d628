/**
 * Parsing of one inbound websocket text unit, `receiverID:payload`, into a
 * target and a payload (splitMessage, main.go).
 */
module Frames {

  /** Index of the first ':' in `s` at or after `i`, or -1 when there is none. */
  function ColonFrom(s: string, i: nat): (r: int)
    requires i <= |s|
    ensures r == -1 || i <= r < |s|
    decreases |s| - i
  {
    if i == |s| then -1 else if s[i] == ':' then i else ColonFrom(s, i + 1)
  }

  /** Index of the first ':' in `s`, or -1 when there is none (see FirstColonIsFirst). */
  function FirstColon(s: string): (r: int)
    ensures -1 <= r < |s|
  {
    ColonFrom(s, 0)
  }

  lemma {:induction false} ColonFromIsFirst(s: string, i: nat)
    requires i <= |s|
    ensures ColonFrom(s, i) == -1 <==> forall j :: i <= j < |s| ==> s[j] != ':'
    ensures ColonFrom(s, i) >= 0 ==>
              s[ColonFrom(s, i)] == ':' && forall j :: i <= j < ColonFrom(s, i) ==> s[j] != ':'
    decreases |s| - i
  {
    if i < |s| && s[i] != ':' {
      ColonFromIsFirst(s, i + 1);
    }
  }

  /** FirstColon finds a ':' exactly when there is one, and no ':' comes before it. */
  lemma FirstColonIsFirst(s: string)
    ensures FirstColon(s) == -1 <==> ':' !in s
    ensures FirstColon(s) >= 0 ==> s[FirstColon(s)] == ':' && ':' !in s[..FirstColon(s)]
  {
    ColonFromIsFirst(s, 0);
  }

  /**
   * What splitMessage returns: the two halves around the first ':' when
   * that ':' is not the first character, and no parts otherwise.
   */
  function Split(s: string): (parts: seq<string>)
    ensures |parts| == 0 || |parts| == 2
  {
    var k := FirstColon(s);
    if k > 0 then [s[..k], s[k + 1..]] else []
  }

  /** A frame is well formed when it holds a ':' with a non-empty target before it. */
  predicate WellFormed(s: string) {
    |Split(s)| == 2
  }

  /**
   * The scanning loop of splitMessage: stop at the first ':', then cut at
   * that index only when it is positive.
   */
  method SplitMessage(message: string) returns (parts: seq<string>)
    ensures parts == Split(message)
  {
    var splitIdx := -1;
    var i := 0;
    while i < |message|
      invariant 0 <= i <= |message|
      invariant ColonFrom(message, i) == FirstColon(message)
      invariant splitIdx == -1
    {
      if message[i] == ':' {
        splitIdx := i;
        break;
      }
      i := i + 1;
    }
    parts := [];
    if splitIdx > 0 {
      parts := parts + [message[..splitIdx], message[splitIdx + 1..]];
    }
  }

  /**
   * A message is well formed exactly when its first ':' has something
   * before it; the target then holds no ':'.
   */
  lemma WellFormedIff(m: string)
    ensures WellFormed(m) <==> exists k :: 0 < k < |m| && m[k] == ':' && ':' !in m[..k]
    ensures WellFormed(m) ==> Split(m)[0] != "" && ':' !in Split(m)[0]
  {
    FirstColonIsFirst(m);
    if !WellFormed(m) {
      forall k | 0 < k < |m| && m[k] == ':'
        ensures ':' in m[..k]
      {
        assert FirstColon(m) == 0;
        assert m[..k][0] == ':';
      }
    }
  }

  /** The index found by a left-to-right scan is the first colon. */
  lemma LeftOfFirstColon(s: string, k: int)
    requires -1 <= k < |s|
    requires k == -1 ==> ':' !in s
    requires k >= 0 ==> s[k] == ':' && ':' !in s[..k]
    ensures FirstColon(s) == k
  {
    FirstColonIsFirst(s);
  }

  /** Round trip: the two parts joined by ':' give back the message; the first ':' is the split point. */
  lemma SplitRoundTrip(m: string)
    requires WellFormed(m)
    ensures Split(m)[0] + ":" + Split(m)[1] == m
  {
    FirstColonIsFirst(m);
    var k := FirstColon(m);
    assert m == m[..k] + [m[k]] + m[k + 1..];
  }

  /**
   * Inverse direction: a target without ':' that is not empty, joined to
   * any payload (which may itself hold ':'), splits back into exactly that
   * target and payload.
   */
  lemma SplitOfJoin(target: string, payload: string)
    requires target != [] && ':' !in target
    ensures Split(target + ":" + payload) == [target, payload]
  {
    var m := target + ":" + payload;
    assert m[..|target|] == target;
    assert m[|target|] == ':';
    LeftOfFirstColon(m, |target|);
    assert m[|target| + 1..] == payload;
  }

  /** A message with no ':' or with ':' first is malformed; a trailing ':' gives an empty payload. */
  lemma MalformedFrames(m: string)
    ensures ':' !in m ==> Split(m) == []
    ensures |m| > 0 && m[0] == ':' ==> Split(m) == []
    ensures |m| > 1 && m[|m| - 1] == ':' && ':' !in m[..|m| - 1] ==> Split(m) == [m[..|m| - 1], ""]
  {
    FirstColonIsFirst(m);
    if |m| > 1 && m[|m| - 1] == ':' && ':' !in m[..|m| - 1] {
      LeftOfFirstColon(m, |m| - 1);
      assert m[|m|..] == "";
    }
  }
}

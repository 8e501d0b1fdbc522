/** The client's request and response over its one connection. */
module ClientNetwork {
  import opened Bytes
  import opened Framing

  const MSG_TYPE_ERROR: nat := 0
  const ERROR_SIZE: nat := 128
  const DISCARD_SIZE: nat := 1024

  /** Whether the code reads the whole body of a response, whatever its length and type: a body too large for the
      caller, or for an error message, stays in the stream. */
  predicate ReadsBody(kind: nat, length: nat, expected: nat, max: nat) {
    if kind == MSG_TYPE_ERROR then length <= ERROR_SIZE
    else kind != expected || length <= max
  }

  /** What the code answers when nothing fails. */
  function Verdict(kind: nat, length: nat, expected: nat, max: nat): int {
    if kind == MSG_TYPE_ERROR then -4
    else if kind != expected then -5
    else if length > max then -6
    else 0
  }

  /** The stream holds a whole response. */
  predicate HasFrame(incoming: Bytes) {
    |incoming| >= HEADER_SIZE && |incoming| >= HEADER_SIZE + HeaderLength(incoming)
  }

  function FrameBody(incoming: Bytes): Bytes
    requires HasFrame(incoming)
  {
    incoming[HEADER_SIZE..HEADER_SIZE + HeaderLength(incoming)]
  }

  /** The next unread byte is the first one after this response. */
  predicate AtNextFrame(before: Bytes, after: Bytes) {
    HasFrame(before) && after == before[HEADER_SIZE + HeaderLength(before)..]
  }

  /** Where the stream stands if the client is still connected, `before` being the stream after the header and n the
      length it announced. An answer of 0 or -5 has passed the body; an oversized response (-6) and an oversized error
      message are left untouched; an error message that could not be received (-4) is left anywhere inside it. */
  predicate BodyStanding(code: int, before: Bytes, n: nat, after: Bytes) {
    match code
    case -4 => |after| <= |before| && after == before[|before| - |after|..]
               && |before| - |after| <= (if n > ERROR_SIZE then 0 else n)
    case -6 => after == before && n > 0
    case 0 => n <= |before| && after == before[n..]
    case -5 => n <= |before| && after == before[n..]
    case _ => false
  }

  /** The same from before the header. A signal (-10) leaves all of the response, or all of its body. */
  predicate Standing(code: int, before: Bytes, after: Bytes) {
    || (code in {-1, -10} && after == before)
    || (|before| >= HEADER_SIZE
        && if code == -10 then after == before[HEADER_SIZE..]
           else BodyStanding(code, before[HEADER_SIZE..], HeaderLength(before), after))
  }

  lemma StandsFromHeader(code: int, before: Bytes, after: Bytes)
    requires |before| >= HEADER_SIZE && BodyStanding(code, before[HEADER_SIZE..], HeaderLength(before), after)
    ensures Standing(code, before, after)
  {
  }

  /** A suffix of what follows the header is known by how much was consumed. */
  lemma SuffixIs(before: Bytes, after: Bytes, n: nat)
    requires |before| >= HEADER_SIZE && |after| <= |before| - HEADER_SIZE
    requires after == before[HEADER_SIZE..][|before| - HEADER_SIZE - |after|..]
    ensures (|before| >= HEADER_SIZE + n && after == before[HEADER_SIZE + n..])
            <==> |before| - |after| == HEADER_SIZE + n
  {
  }

  /** With an answer of -4 the client stands at the next frame exactly if the error message was received whole, which an
      oversized one never is; with -6 it never does. */
  lemma InStepIff(code: int, before: Bytes, after: Bytes)
    requires code in {-4, -6} && Standing(code, before, after)
    ensures AtNextFrame(before, after) <==>
              code == -4 && |before| - |after| == HEADER_SIZE + HeaderLength(before)
    ensures code == -4 && HeaderLength(before) > ERROR_SIZE ==> !AtNextFrame(before, after)
  {
    SuffixIs(before, after, HeaderLength(before));
  }

  lemma BodyAfterHeader(before: Bytes, n: nat)
    requires |before| >= HEADER_SIZE + n
    ensures before[HEADER_SIZE..][..n] == before[HEADER_SIZE..HEADER_SIZE + n]
    ensures before[HEADER_SIZE..][n..] == before[HEADER_SIZE + n..]
  {
  }

  /** At most n bytes of the frame were sent after `before`. */
  ghost predicate SentPart(before: Bytes, frame: Bytes, n: int, after: Bytes) {
    exists k: nat :: k <= n && k <= |frame| && after == before + frame[..k]
  }

  lemma PartOfHeader(before: Bytes, kind: nat, body: Bytes, after: Bytes)
    requires exists k: nat :: k < HEADER_SIZE && after == before + EncodeHeader(kind, |body|)[..k]
    ensures SentPart(before, Frame(kind, body), |Frame(kind, body)| - 1, after)
  {
    var k: nat :| k < HEADER_SIZE && after == before + EncodeHeader(kind, |body|)[..k];
    assert Frame(kind, body)[..k] == EncodeHeader(kind, |body|)[..k];
  }

  lemma PartOfBody(before: Bytes, kind: nat, body: Bytes, after: Bytes)
    requires exists k: nat :: k < |body| && after == before + EncodeHeader(kind, |body|) + body[..k]
    ensures SentPart(before, Frame(kind, body), |Frame(kind, body)| - 1, after)
  {
    var k: nat :| k < |body| && after == before + EncodeHeader(kind, |body|) + body[..k];
    assert Frame(kind, body)[..HEADER_SIZE + k] == EncodeHeader(kind, |body|) + body[..k];
  }

  class Client {
    const socket: Socket
    var connected: bool

    constructor (socket: Socket)
      ensures this.socket == socket && connected
    {
      this.socket := socket;
      connected := true;
    }

    /** The draining loop for a response of an unexpected type. */
    method Drain(length: nat) returns (code: int)
      modifies this`connected, socket
      ensures socket.sent == old(socket.sent)
      ensures exists k: nat :: k <= length && k <= |old(socket.incoming)|
                               && socket.incoming == old(socket.incoming)[k..]
      ensures code == 0 ==> connected == old(connected) && length <= |old(socket.incoming)|
                            && socket.incoming == old(socket.incoming)[length..]
      ensures code != 0 ==> !connected
      ensures Quiet(old(socket.script)) && !old(socket.sigint) && length <= |old(socket.incoming)| ==> code == 0
    {
      var remaining := length;
      ghost var done := 0;
      while remaining > 0
        invariant 0 <= done <= length && done + remaining == length && done <= |old(socket.incoming)|
        invariant socket.incoming == old(socket.incoming)[done..] && socket.sent == old(socket.sent)
        invariant connected == old(connected)
        invariant Quiet(old(socket.script)) ==> Quiet(socket.script) && socket.sigint == old(socket.sigint)
      {
        var chunk := if remaining > DISCARD_SIZE then DISCARD_SIZE else remaining;
        var r, buf := socket.RecvAll(chunk, true);
        if r != 0 {
          connected := false;
          assert socket.incoming == old(socket.incoming)[done + |buf|..];
          return r;
        }
        remaining, done := remaining - chunk, done + chunk;
      }
      assert socket.incoming == old(socket.incoming)[done..];
      return 0;
    }

    /** `send_request_and_receive_response`. */
    method Exchange(kind: nat, body: Bytes, expected: nat, max: nat) returns (code: int, response: Bytes)
      requires kind < TYPE_LIMIT
      modifies this`connected, socket
      // Success: the request has been sent whole, and the response is exactly the next frame, of the expected type.
      ensures code == 0 ==>
                && connected && old(connected)
                && HasFrame(old(socket.incoming)) && HeaderType(old(socket.incoming)) == expected != MSG_TYPE_ERROR
                && HeaderLength(old(socket.incoming)) <= max
                && response == FrameBody(old(socket.incoming)) && AtNextFrame(old(socket.incoming), socket.incoming)
      // The other endings.
      ensures code == -1 <==> !old(connected)
      ensures code == -1 ==> socket.sent == old(socket.sent) && socket.incoming == old(socket.incoming)
      ensures code in {-2, -3} ==> !connected
      ensures code == -10 ==> socket.sigint
      ensures code in {0, -1, -2, -3, -4, -5, -6, -10}
      // How much of the request went out: all of it before a response is looked at, a proper prefix when sending
      // failed, some prefix when a signal came in between.
      ensures code in {0, -3, -4, -5, -6} ==> socket.sent == old(socket.sent) + Frame(kind, body)
      ensures code == -2 ==> SentPart(old(socket.sent), Frame(kind, body), |Frame(kind, body)| - 1, socket.sent)
      ensures code == -10 ==> SentPart(old(socket.sent), Frame(kind, body), |Frame(kind, body)|, socket.sent)
      // Whatever fails: where the next answer will be looked for.
      ensures connected || code == -1 ==> Standing(code, old(socket.incoming), socket.incoming)
      // Without errors or signals the answer is the response's own, and its body is read as ReadsBody says.
      ensures old(connected) && Quiet(old(socket.script)) && !old(socket.sigint) && HasFrame(old(socket.incoming)) ==>
                var t, n := HeaderType(old(socket.incoming)), HeaderLength(old(socket.incoming));
                && code == Verdict(t, n, expected, max) && connected
                && var read := if ReadsBody(t, n, expected, max) then n else 0;
                socket.incoming == old(socket.incoming)[HEADER_SIZE + read..]
    {
      response := [];
      ghost var before, frame := socket.sent, Frame(kind, body);
      assert before == before + frame[..0];
      if !connected { return -1, []; }
      if socket.sigint { return -10, []; }
      var r := socket.SendAll(EncodeHeader(kind, |body|), true);
      if r != 0 {
        PartOfHeader(before, kind, body, socket.sent);
        connected := false;
        return -2, [];
      }
      assert frame[..HEADER_SIZE] == EncodeHeader(kind, |body|);
      if socket.sigint { return -10, []; }
      if |body| > 0 {
        r := socket.SendAll(body, true);
        if r != 0 {
          PartOfBody(before, kind, body, socket.sent);
          connected := false;
          return -2, [];
        }
      }
      assert socket.sent == before + frame && frame[..|frame|] == frame;
      if socket.sigint { return -10, []; }
      code, response := ReceiveResponse(expected, max);
    }

    /** The second half: from the response header on. */
    method ReceiveResponse(expected: nat, max: nat) returns (code: int, response: Bytes)
      requires connected && !socket.sigint
      modifies this`connected, socket
      ensures socket.sent == old(socket.sent)
      ensures code == 0 ==>
                && connected
                && HasFrame(old(socket.incoming)) && HeaderType(old(socket.incoming)) == expected != MSG_TYPE_ERROR
                && HeaderLength(old(socket.incoming)) <= max
                && response == FrameBody(old(socket.incoming)) && AtNextFrame(old(socket.incoming), socket.incoming)
      ensures code == -3 ==> !connected
      ensures code == -10 ==> socket.sigint
      ensures code in {0, -3, -4, -5, -6, -10}
      ensures connected ==> Standing(code, old(socket.incoming), socket.incoming)
      ensures Quiet(old(socket.script)) && HasFrame(old(socket.incoming)) ==>
                var t, n := HeaderType(old(socket.incoming)), HeaderLength(old(socket.incoming));
                && code == Verdict(t, n, expected, max) && connected
                && var read := if ReadsBody(t, n, expected, max) then n else 0;
                socket.incoming == old(socket.incoming)[HEADER_SIZE + read..]
    {
      ghost var start := socket.incoming;
      var r, header := socket.RecvAll(HEADER_SIZE, true);
      if r != 0 { connected := false; return -3, []; }
      if socket.sigint { return -10, []; }
      var t, n := HeaderType(header), HeaderLength(header);
      assert t == HeaderType(start) && n == HeaderLength(start) && socket.incoming == start[HEADER_SIZE..];
      code, response := ReceiveBody(t, n, expected, max);
      if connected { StandsFromHeader(code, start, socket.incoming); }
      if HasFrame(start) { BodyAfterHeader(start, n); }
    }

    /** And from the response body on. */
    method ReceiveBody(t: nat, n: nat, expected: nat, max: nat) returns (code: int, response: Bytes)
      requires connected && !socket.sigint
      modifies this`connected, socket
      ensures socket.sent == old(socket.sent)
      ensures code == 0 ==>
                && connected && t == expected != MSG_TYPE_ERROR && n <= max && n <= |old(socket.incoming)|
                && response == old(socket.incoming)[..n] && socket.incoming == old(socket.incoming)[n..]
      ensures code == -3 ==> !connected
      ensures code in {0, -3, -4, -5, -6}
      ensures connected ==> BodyStanding(code, old(socket.incoming), n, socket.incoming)
      ensures Quiet(old(socket.script)) && n <= |old(socket.incoming)| ==>
                && code == Verdict(t, n, expected, max) && connected
                && socket.incoming == old(socket.incoming)[if ReadsBody(t, n, expected, max) then n else 0..]
    {
      var r := 0;
      response := [];
      if t == MSG_TYPE_ERROR {
        if 0 < n <= ERROR_SIZE { r, response := socket.RecvAll(n, true); }
        return -4, [];
      }
      if t != expected {
        if n > 0 { r := Drain(n); }
        return -5, [];
      }
      if n > max { return -6, []; }
      if n > 0 {
        r, response := socket.RecvAll(n, true);
        if r != 0 { connected := false; return -3, []; }
      }
      assert socket.incoming == old(socket.incoming)[n..];
      return 0, response;
    }
  }
}

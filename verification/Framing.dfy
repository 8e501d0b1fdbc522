/** Message headers, and the exact-length send and receive loops over a socket that moves bytes as it likes. */
module Framing {
  import opened Bytes

  const HEADER_SIZE: nat := 6
  const LENGTH_LIMIT: nat := 0x1_0000
  const TYPE_LIMIT: nat := 0x1_0000_0000

  // ---------- the packed header: a 32-bit type and a 16-bit length, low byte first ----------

  function Low(n: nat): Byte {
    (n % 256) as char
  }

  function EncodeHeader(kind: nat, length: nat): (h: Bytes)
    ensures |h| == HEADER_SIZE
  {
    [Low(kind), Low(kind / 0x100), Low(kind / 0x1_0000), Low(kind / 0x100_0000), Low(length), Low(length / 0x100)]
  }

  function HeaderType(h: Bytes): nat
    requires |h| >= HEADER_SIZE
  {
    h[0] as int + 0x100 * h[1] as int + 0x1_0000 * h[2] as int + 0x100_0000 * h[3] as int
  }

  function HeaderLength(h: Bytes): (n: nat)
    requires |h| >= HEADER_SIZE
    ensures n < LENGTH_LIMIT
  {
    h[4] as int + 0x100 * h[5] as int
  }

  /** The header decodes to what was put in; the length only if it fits 16 bits. */
  lemma HeaderRoundTrip(kind: nat, length: nat)
    requires kind < TYPE_LIMIT
    ensures HeaderType(EncodeHeader(kind, length)) == kind
    ensures HeaderLength(EncodeHeader(kind, length)) == length <==> length < LENGTH_LIMIT
  {
    assert kind / 0x1_0000 == kind / 0x100 / 0x100;
    assert kind / 0x100_0000 == kind / 0x1_0000 / 0x100;
    assert kind / 0x100_0000 < 256;
  }

  /** A header and its body on the wire. */
  function Frame(kind: nat, body: Bytes): Bytes {
    EncodeHeader(kind, |body|) + body
  }

  lemma FrameHeader(kind: nat, body: Bytes)
    requires kind < TYPE_LIMIT && |body| < LENGTH_LIMIT
    ensures var f := Frame(kind, body);
            && f[..HEADER_SIZE] == EncodeHeader(kind, |body|) && f[HEADER_SIZE..] == body
            && HeaderType(f) == kind && HeaderLength(f) == |body|
            && HeaderType(f[..HEADER_SIZE]) == kind && HeaderLength(f[..HEADER_SIZE]) == |body|
  {
    HeaderRoundTrip(kind, |body|);
  }

  // ---------- a socket ----------

  /** The result of one send or recv call. */
  datatype Call = Interrupted | Failed | Ended | Moved(n: nat)

  /** What the operating system does next, and whether a SIGINT arrives with it. */
  datatype Event = Event(call: Call, signal: bool)

  predicate Quiet(script: seq<Event>) {
    forall e :: e in script ==> e.call.Moved? && !e.signal
  }

  /** One end of a stream. `script` is the adversary: each call consumes one event, and an empty script moves all that
      is asked. `incoming` is all that will ever arrive and has not been received. */
  class Socket {
    var script: seq<Event>
    var sigint: bool
    var sent: Bytes
    var incoming: Bytes

    constructor (script: seq<Event>, incoming: Bytes)
      ensures this.script == script && !sigint && sent == [] && this.incoming == incoming
    {
      this.script, sigint, sent, this.incoming := script, false, [], incoming;
    }

    /** The next system call on n > 0 bytes, of which at most `available` can move: -1, 0 or the number moved. */
    method Call(n: nat, available: nat) returns (moved: int, eintr: bool)
      requires n > 0
      modifies `script, `sigint
      ensures -1 <= moved <= n && moved <= available && (eintr ==> moved == -1)
      ensures moved == -1 ==> |script| < |old(script)|
      ensures Quiet(old(script)) ==> Quiet(script) && sigint == old(sigint) && (available > 0 ==> moved > 0)
    {
      var limit := if available < n then available else n;
      if script == [] { return limit, false; }
      var e := script[0];
      assert e in script;
      script := script[1..];
      sigint := sigint || e.signal;
      match e.call {
        case Interrupted => return -1, true;
        case Failed => return -1, false;
        case Ended => return 0, false;
        case Moved(k) =>
          return if limit == 0 then 0 else if k == 0 then 1 else if k < limit then k else limit, false;
      }
    }

    /** `send_all`; the client's looks at the signal flag before every call. */
    method SendAll(buf: Bytes, client: bool) returns (code: int)
      modifies this
      ensures incoming == old(incoming)
      ensures code == 0 ==> sent == old(sent) + buf
      ensures code != 0 ==> exists k: nat :: k < |buf| && sent == old(sent) + buf[..k]
      ensures code in {0, -1, -10} && (code == -10 ==> client && sigint)
      ensures Quiet(old(script)) ==> Quiet(script) && sigint == old(sigint) && (code != 0 ==> client && sigint)
    {
      var total := 0;
      while total < |buf|
        invariant 0 <= total <= |buf| && sent == old(sent) + buf[..total] && incoming == old(incoming)
        invariant Quiet(old(script)) ==> Quiet(script) && sigint == old(sigint)
        decreases |buf| - total, |script|
      {
        if client && sigint { return -10; }
        var n, eintr := Call(|buf| - total, |buf| - total);
        if n == -1 {
          if eintr { continue; }
          return -1;
        }
        if n == 0 { return -1; }
        sent := sent + buf[total..total + n];
        assert buf[..total + n] == buf[..total] + buf[total..total + n];
        total := total + n;
      }
      assert buf[..total] == buf;
      return 0;
    }

    /** `recv_all`: `buf` is what has been received. */
    method RecvAll(len: nat, client: bool) returns (code: int, buf: Bytes)
      modifies this
      ensures sent == old(sent)
      ensures |buf| <= |old(incoming)| && buf == old(incoming)[..|buf|] && incoming == old(incoming)[|buf|..]
      ensures if code == 0 then |buf| == len else |buf| < len
      ensures code in {0, -1, -10} && (code == -10 ==> client && sigint)
      ensures Quiet(old(script)) ==> Quiet(script) && sigint == old(sigint)
                                     && (code != 0 && len <= |old(incoming)| ==> client && sigint)
    {
      buf := [];
      while |buf| < len
        invariant |buf| <= len && |buf| <= |old(incoming)|
        invariant buf == old(incoming)[..|buf|] && incoming == old(incoming)[|buf|..] && sent == old(sent)
        invariant Quiet(old(script)) ==> Quiet(script) && sigint == old(sigint)
        decreases len - |buf|, |script|
      {
        if client && sigint { return -10, buf; }
        var n, eintr := Call(len - |buf|, |incoming|);
        if n == -1 {
          if eintr { continue; }
          return -1, buf;
        }
        if n == 0 { return -1, buf; }
        buf, incoming := buf + incoming[..n], incoming[n..];
      }
      return 0, buf;
    }

    /** `send_response`. */
    method SendResponse(kind: nat, data: Bytes) returns (code: int)
      modifies this
      ensures incoming == old(incoming)
      ensures code == 0 ==> sent == old(sent) + Frame(kind, data)
      ensures code != 0 ==> exists k: nat :: k < |Frame(kind, data)| && sent == old(sent) + Frame(kind, data)[..k]
      ensures code in {0, -1}
    {
      var header := EncodeHeader(kind, |data|);
      code := SendAll(header, false);
      if code != 0 {
        ghost var k: nat :| k < |header| && sent == old(sent) + header[..k];
        assert Frame(kind, data)[..k] == header[..k];
        return -1;
      }
      if |data| > 0 {
        code := SendAll(data, false);
        if code != 0 {
          ghost var k: nat :| k < |data| && sent == old(sent) + header + data[..k];
          assert Frame(kind, data)[..|header| + k] == header + data[..k];
          return -1;
        }
      }
      assert old(sent) + header + data == old(sent) + Frame(kind, data);
      return 0;
    }
  }
}

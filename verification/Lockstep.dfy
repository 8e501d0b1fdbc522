/** One client and one handler over two byte streams: requests and responses alternate, and no byte is lost, invented
    or read by the wrong exchange, however the streams split what is sent. Runs without I/O errors or signals. */
module Lockstep {
  import opened Bytes
  import opened Framing
  import ClientNetwork

  const BODY_LIMIT: nat := 10240

  /** The requests a client makes. */
  datatype Kind = Register | Login | Submit | Leaderboard | Logout | WordList

  function RequestType(k: Kind): nat {
    match k
    case Register => 0x01
    case Login => 0x03
    case Submit => 0x05
    case Leaderboard => 0x07
    case Logout => 0x09
    case WordList => 0x20
  }

  function RequestSize(k: Kind): nat {
    match k
    case Register => 32 + 72
    case Login => 32 + 72
    case Submit => 4
    case Leaderboard => 0
    case Logout => 0
    case WordList => 0
  }

  /** The type the client expects, and the size of the structure it passes for the answer. */
  function ResponseType(k: Kind): nat {
    RequestType(k) + 1
  }

  function ResponseSize(k: Kind): nat {
    match k
    case Register => 4 + 128
    case Login => 4 + 128
    case Submit => 4 + 128
    case Leaderboard => 4 + 10 * (32 + 4) + 128
    case Logout => 4 + 128
    case WordList => 4 + 256 * 32
  }

  datatype Message = Message(kind: nat, body: Bytes)

  /** The server's switch on the type: which response it sends. `body` is the response the handler computes. */
  predicate Answers(requestType: nat, answer: Message) {
    && (forall k :: requestType == RequestType(k) ==>
          answer.kind == ResponseType(k) && |answer.body| == ResponseSize(k))
    && ((forall k :: requestType != RequestType(k)) ==>
          answer.kind == ClientNetwork.MSG_TYPE_ERROR && |answer.body| == ClientNetwork.ERROR_SIZE)
  }

  datatype Client =
    | Idle
    | Sending(rest: Bytes)
    | AwaitHeader(got: Bytes)
    | AwaitBody(header: Bytes, got: Bytes)
    | Broken // an answer that is not the expected one

  datatype Handler =
    | RecvHeader(got: Bytes)
    | RecvBody(header: Bytes, got: Bytes)
    | Replying(rest: Bytes)
    | Dropped // a body over the limit: the handler closes the connection

  /** `up` and `down` are the bytes in flight; the last four fields are history. */
  datatype Link = Link(
    client: Client, handler: Handler, up: Bytes, down: Bytes,
    requests: seq<(Kind, Bytes)>, served: seq<Message>, replies: seq<Message>, received: seq<Message>)

  datatype Action =
    | Start(k: Kind, body: Bytes)
    | ClientSend(n: nat)
    | ClientRecv(n: nat)
    | HandlerRecv(n: nat)
    | HandlerWork(answer: Message)
    | HandlerSend(n: nat)

  function Last<T>(s: seq<T>): T
    requires s != []
  {
    s[|s| - 1]
  }

  // ---------- the client ----------

  /** A request body is the request structure. */
  function StartStep(s: Link, k: Kind, body: Bytes): Link {
    if s.client.Idle? && |body| == RequestSize(k)
    then s.(client := Sending(Frame(RequestType(k), body)), requests := s.requests + [(k, body)])
    else s
  }

  function ClientSendStep(s: Link, n: nat): Link {
    if s.client.Sending? && 0 < n <= |s.client.rest|
    then
      var rest := s.client.rest[n..];
      s.(client := if rest == [] then AwaitHeader([]) else Sending(rest), up := s.up + s.client.rest[..n])
    else s
  }

  /** What the client does with a complete header: only an expected answer that fits is read. */
  function HeaderRead(s: Link, header: Bytes): Client
    requires |header| == HEADER_SIZE && s.requests != []
  {
    var k := Last(s.requests).0;
    if ClientNetwork.Verdict(HeaderType(header), HeaderLength(header), ResponseType(k), ResponseSize(k)) == 0
    then AwaitBody(header, [])
    else Broken
  }

  function ClientRecvStep(s: Link, n: nat): Link
    requires !s.client.Idle? ==> s.requests != []
  {
    match s.client
    case AwaitHeader(got) =>
      if |got| < HEADER_SIZE && 0 < n <= |s.down| && n <= HEADER_SIZE - |got|
      then
        var more := got + s.down[..n];
        s.(client := if |more| == HEADER_SIZE then HeaderRead(s, more) else AwaitHeader(more), down := s.down[n..])
      else s
    case AwaitBody(header, got) =>
      if |header| == HEADER_SIZE && 0 < n <= |s.down| && |got| + n <= HeaderLength(header)
      then
        var more := got + s.down[..n];
        if |more| == HeaderLength(header)
        then s.(client := Idle, received := s.received + [Message(HeaderType(header), more)], down := s.down[n..])
        else s.(client := AwaitBody(header, more), down := s.down[n..])
      else s
    case _ => s
  }

  // ---------- the handler ----------

  function HandlerRecvStep(s: Link, n: nat): Link {
    match s.handler
    case RecvHeader(got) =>
      if |got| < HEADER_SIZE && 0 < n <= |s.up| && n <= HEADER_SIZE - |got|
      then
        var more := got + s.up[..n];
        s.(handler := if |more| < HEADER_SIZE then RecvHeader(more)
                      else if HeaderLength(more) > BODY_LIMIT then Dropped
                      else RecvBody(more, []),
           up := s.up[n..])
      else s
    case RecvBody(header, got) =>
      if |header| == HEADER_SIZE && 0 < n <= |s.up| && |got| + n <= HeaderLength(header)
      then s.(handler := RecvBody(header, got + s.up[..n]), up := s.up[n..])
      else s
    case _ => s
  }

  /** The request is complete: it is served, and the response is handed to send_response. */
  function HandlerWorkStep(s: Link, answer: Message): Link {
    match s.handler
    case RecvBody(header, got) =>
      if |header| == HEADER_SIZE && |got| == HeaderLength(header) && Answers(HeaderType(header), answer)
      then s.(handler := Replying(Frame(answer.kind, answer.body)),
              served := s.served + [Message(HeaderType(header), got)], replies := s.replies + [answer])
      else s
    case _ => s
  }

  function HandlerSendStep(s: Link, n: nat): Link {
    if s.handler.Replying? && 0 < n <= |s.handler.rest|
    then
      var rest := s.handler.rest[n..];
      s.(handler := if rest == [] then RecvHeader([]) else Replying(rest), down := s.down + s.handler.rest[..n])
    else s
  }

  // ---------- runs ----------

  predicate Waiting(s: Link) {
    !s.client.Idle? ==> s.requests != []
  }

  function Next(s: Link, a: Action): Link
    requires Waiting(s)
  {
    match a
    case Start(k, body) => StartStep(s, k, body)
    case ClientSend(n) => ClientSendStep(s, n)
    case ClientRecv(n) => ClientRecvStep(s, n)
    case HandlerRecv(n) => HandlerRecvStep(s, n)
    case HandlerWork(answer) => HandlerWorkStep(s, answer)
    case HandlerSend(n) => HandlerSendStep(s, n)
  }

  const CONNECTED := Link(Idle, RecvHeader([]), [], [], [], [], [], [])

  // ---------- the invariant ----------

  /** What the client has still to send of its request. */
  function ToSend(c: Client): Bytes {
    if c.Sending? then c.rest else []
  }

  /** What the client has of the response. */
  function Got(c: Client): Bytes {
    match c
    case AwaitHeader(got) => got
    case AwaitBody(header, got) => header + got
    case _ => []
  }

  function Heard(h: Handler): Bytes {
    match h
    case RecvHeader(got) => got
    case RecvBody(header, got) => header + got
    case _ => []
  }

  function ToReply(h: Handler): Bytes {
    if h.Replying? then h.rest else []
  }

  /** Partly received headers and bodies are where the code can be between two calls. */
  predicate Positions(s: Link) {
    && !s.client.Broken? && !s.handler.Dropped?
    && (s.client.Sending? ==> s.client.rest != [])
    && (s.client.AwaitHeader? ==> |s.client.got| < HEADER_SIZE)
    && (s.client.AwaitBody? ==> |s.client.header| == HEADER_SIZE && |s.client.got| < HeaderLength(s.client.header))
    && (s.handler.RecvHeader? ==> |s.handler.got| < HEADER_SIZE)
    && (s.handler.RecvBody? ==> |s.handler.header| == HEADER_SIZE && |s.handler.got| <= HeaderLength(s.handler.header))
    && (s.handler.Replying? ==> s.handler.rest != [])
  }

  function RequestMessage(r: (Kind, Bytes)): Message {
    Message(RequestType(r.0), r.1)
  }

  /** What the handler has served are the requests, in order; each answer is the one for its request. */
  predicate Served(s: Link) {
    && |s.served| == |s.replies| <= |s.requests|
    && (forall i :: 0 <= i < |s.requests| ==> |s.requests[i].1| == RequestSize(s.requests[i].0))
    && (forall i :: 0 <= i < |s.served| ==>
          s.served[i] == RequestMessage(s.requests[i]) && Answers(s.served[i].kind, s.replies[i]))
    && |s.received| <= |s.replies|
    && s.received == s.replies[..|s.received|]
  }

  /** Between two exchanges nothing is in flight. */
  predicate Quiescent(s: Link) {
    && s.handler == RecvHeader([]) && s.up == [] && s.down == []
    && |s.requests| == |s.served| == |s.received|
  }

  /** The request is on its way: the handler's part, the bytes in flight and the client's rest make up its frame. */
  predicate Asking(s: Link) {
    && |s.requests| == |s.served| + 1 && |s.received| == |s.served|
    && (s.client.Sending? || s.client == AwaitHeader([]))
    && (s.handler.RecvHeader? || s.handler.RecvBody?)
    && s.down == []
    && Heard(s.handler) + s.up + ToSend(s.client) == Frame(RequestType(Last(s.requests).0), Last(s.requests).1)
  }

  /** The response is on its way. */
  predicate Answering(s: Link) {
    && |s.requests| == |s.served| == |s.replies| == |s.received| + 1
    && (s.client.AwaitHeader? || s.client.AwaitBody?)
    && (s.handler.Replying? || s.handler == RecvHeader([]))
    && s.up == []
    && Got(s.client) + s.down + ToReply(s.handler) == Frame(Last(s.replies).kind, Last(s.replies).body)
  }

  predicate Inv(s: Link) {
    && Positions(s)
    && Served(s)
    && (if s.client.Idle? then Quiescent(s) else Asking(s) || Answering(s))
  }

  // ---------- every step keeps it ----------

  /** Six bytes at the front of a frame are its header. */
  lemma FrontIsHeader(header: Bytes, rest: Bytes, kind: nat, body: Bytes)
    requires |header| == HEADER_SIZE && header + rest == Frame(kind, body)
    requires kind < TYPE_LIMIT && |body| < LENGTH_LIMIT
    ensures HeaderType(header) == kind && HeaderLength(header) == |body| && rest == body
  {
    FrameHeader(kind, body);
    assert header == (header + rest)[..HEADER_SIZE] && rest == (header + rest)[HEADER_SIZE..];
  }

  /** Bytes that move from the front of one part to the back of the part before it leave the whole as it is. */
  lemma Moves(a: Bytes, b: Bytes, c: Bytes, n: nat)
    requires n <= |b|
    ensures (a + b[..n]) + b[n..] + c == a + b + c
    ensures n <= |b| ==> a + (b[..n]) + (b[n..] + c) == a + b + c
  {
    assert b[..n] + b[n..] == b;
  }

  lemma MovesLast(a: Bytes, b: Bytes, c: Bytes, n: nat)
    requires n <= |c|
    ensures a + (b + c[..n]) + c[n..] == a + b + c
  {
    assert c[..n] + c[n..] == c;
  }

  lemma StartKeeps(s: Link, k: Kind, body: Bytes)
    requires Inv(s)
    ensures Inv(StartStep(s, k, body))
  {
    var t := StartStep(s, k, body);
    if t != s {
      assert [] + [] + Frame(RequestType(k), body) == Frame(RequestType(k), body);
      assert Asking(t);
    }
  }

  lemma ClientSendKeeps(s: Link, n: nat)
    requires Inv(s)
    ensures Inv(ClientSendStep(s, n))
  {
    var t := ClientSendStep(s, n);
    if t != s {
      MovesLast(Heard(s.handler), s.up, s.client.rest, n);
      assert Asking(t);
    }
  }

  lemma LastAnswer(s: Link)
    requires Served(s) && |s.requests| == |s.served| > 0
    ensures Last(s.replies).kind == ResponseType(Last(s.requests).0)
    ensures |Last(s.replies).body| == ResponseSize(Last(s.requests).0)
  {
    var i := |s.served| - 1;
    assert s.served[i] == RequestMessage(s.requests[i]) && Answers(s.served[i].kind, s.replies[i]);
  }

  lemma ClientHeaderKeeps(s: Link, n: nat)
    requires Inv(s) && Answering(s) && s.client.AwaitHeader?
    ensures Inv(ClientRecvStep(s, n))
  {
    var t := ClientRecvStep(s, n);
    if t != s {
      var more, answer := s.client.got + s.down[..n], Last(s.replies);
      Moves(s.client.got, s.down, ToReply(s.handler), n);
      LastAnswer(s);
      if |more| == HEADER_SIZE {
        FrontIsHeader(more, s.down[n..] + ToReply(s.handler), answer.kind, answer.body);
        assert more + [] == more;
      }
      assert Answering(t);
    }
  }

  lemma ClientBodyKeeps(s: Link, n: nat)
    requires Inv(s) && Answering(s) && s.client.AwaitBody?
    ensures Inv(ClientRecvStep(s, n))
  {
    var t := ClientRecvStep(s, n);
    if t != s {
      var header, more, answer := s.client.header, s.client.got + s.down[..n], Last(s.replies);
      var tail := s.down[n..] + ToReply(s.handler);
      Moves(header + s.client.got, s.down, ToReply(s.handler), n);
      assert (header + s.client.got) + s.down[..n] == header + more;
      assert header + (more + tail) == Frame(answer.kind, answer.body);
      LastAnswer(s);
      FrontIsHeader(header, more + tail, answer.kind, answer.body);
      if |more| == HeaderLength(header) {
        assert tail == [] && more == answer.body;
        assert Message(HeaderType(header), more) == answer;
        assert Quiescent(t);
      } else {
        assert Answering(t);
      }
    }
  }

  lemma HandlerRecvKeeps(s: Link, n: nat)
    requires Inv(s)
    ensures Inv(HandlerRecvStep(s, n))
  {
    var t := HandlerRecvStep(s, n);
    if t != s {
      var r := Last(s.requests);
      assert r == s.requests[|s.requests| - 1];
      Moves(Heard(s.handler), s.up, ToSend(s.client), n);
      if s.handler.RecvHeader? {
        var more := s.handler.got + s.up[..n];
        if |more| == HEADER_SIZE {
          FrontIsHeader(more, s.up[n..] + ToSend(s.client), RequestType(r.0), r.1);
          assert more + [] == more;
        }
      } else {
        var header, got := s.handler.header, s.handler.got;
        assert header + got + s.up[..n] == header + (got + s.up[..n]);
      }
      assert Asking(t);
    }
  }

  lemma HandlerWorkKeeps(s: Link, answer: Message)
    requires Inv(s)
    ensures Inv(HandlerWorkStep(s, answer))
  {
    var t := HandlerWorkStep(s, answer);
    if t != s {
      var r, header, got := Last(s.requests), s.handler.header, s.handler.got;
      assert r == s.requests[|s.requests| - 1];
      var tail := s.up + ToSend(s.client);
      assert header + (got + tail) == header + got + s.up + ToSend(s.client);
      FrontIsHeader(header, got + tail, RequestType(r.0), r.1);
      assert tail == [] && got == r.1;
      assert [] + [] + Frame(answer.kind, answer.body) == Frame(answer.kind, answer.body);
      assert Answering(t);
    }
  }

  lemma HandlerSendKeeps(s: Link, n: nat)
    requires Inv(s)
    ensures Inv(HandlerSendStep(s, n))
  {
    var t := HandlerSendStep(s, n);
    if t != s {
      MovesLast(Got(s.client), s.down, s.handler.rest, n);
      assert Answering(t);
    }
  }

  lemma NextKeepsInv(s: Link, a: Action)
    requires Inv(s)
    ensures Inv(Next(s, a))
  {
    match a
    case Start(k, body) => StartKeeps(s, k, body);
    case ClientSend(n) => ClientSendKeeps(s, n);
    case ClientRecv(n) =>
      if Answering(s) && s.client.AwaitHeader? {
        ClientHeaderKeeps(s, n);
      } else if Answering(s) && s.client.AwaitBody? {
        ClientBodyKeeps(s, n);
      }
    case HandlerRecv(n) => HandlerRecvKeeps(s, n);
    case HandlerWork(answer) => HandlerWorkKeeps(s, answer);
    case HandlerSend(n) => HandlerSendKeeps(s, n);
  }

  /** The state after the actions, in order. */
  function After(acts: seq<Action>): (s: Link)
    ensures Waiting(s)
  {
    if acts == [] then CONNECTED else Next(After(acts[..|acts| - 1]), acts[|acts| - 1])
  }

  lemma {:induction false} RunInv(acts: seq<Action>)
    ensures Inv(After(acts))
  {
    if acts != [] {
      RunInv(acts[..|acts| - 1]);
      NextKeepsInv(After(acts[..|acts| - 1]), acts[|acts| - 1]);
    }
  }

  // ---------- the results ----------

  /** Whenever the client is free to make its next request, both directions are empty and the handler waits for a
      header; every request was served with exactly its bytes, and every answer was received with exactly the bytes
      sent, of the expected type. */
  lemma LockstepHolds(acts: seq<Action>)
    requires After(acts).client.Idle?
    ensures var s := After(acts);
            && s.up == [] && s.down == [] && s.handler == RecvHeader([])
            && |s.served| == |s.requests| && s.received == s.replies && |s.received| == |s.requests|
            && forall i :: 0 <= i < |s.requests| ==>
                 && s.served[i] == Message(RequestType(s.requests[i].0), s.requests[i].1)
                 && s.received[i].kind == ResponseType(s.requests[i].0)
                 && |s.received[i].body| == ResponseSize(s.requests[i].0)
  {
    RunInv(acts);
    var s := After(acts);
    forall i | 0 <= i < |s.requests|
      ensures s.served[i] == Message(RequestType(s.requests[i].0), s.requests[i].1)
      ensures s.received[i].kind == ResponseType(s.requests[i].0)
      ensures |s.received[i].body| == ResponseSize(s.requests[i].0)
    {
      assert s.served[i] == RequestMessage(s.requests[i]) && Answers(s.served[i].kind, s.replies[i]);
    }
  }

  /** The client never meets an answer it does not expect, and the handler never drops the connection. */
  lemma NeverBroken(acts: seq<Action>)
    ensures !After(acts).client.Broken? && !After(acts).handler.Dropped?
  {
    RunInv(acts);
  }

  function SomeAnswer(k: Kind): (m: Message)
    ensures Answers(RequestType(k), m)
  {
    Message(ResponseType(k), seq(ResponseSize(k), _ => 'a'))
  }

  /** Client and handler never both wait: until the exchange is over, one of them can take a step. */
  lemma NeverStuck(acts: seq<Action>) returns (a: Action)
    requires !After(acts).client.Idle?
    ensures Next(After(acts), a) != After(acts)
  {
    RunInv(acts);
    a := SomeMove(After(acts));
  }

  lemma SomeMove(s: Link) returns (a: Action)
    requires Inv(s) && Waiting(s) && !s.client.Idle?
    ensures Next(s, a) != s
  {
    if s.client.Sending? {
      a := ClientSend(1);
    } else if Asking(s) {
      a := AskingMoves(s);
    } else if s.handler.Replying? {
      a := HandlerSend(1);
    } else {
      a := ClientRecv(1);
      DownNotEmpty(s);
    }
  }

  lemma DownNotEmpty(s: Link)
    requires Inv(s) && Answering(s) && s.handler == RecvHeader([])
    ensures s.down != []
  {
    var answer := Last(s.replies);
    LastAnswer(s);
    if s.client.AwaitBody? {
      assert s.client.header + s.client.got + s.down + [] == s.client.header + (s.client.got + s.down);
      FrontIsHeader(s.client.header, s.client.got + s.down, answer.kind, answer.body);
    }
  }

  lemma AskingMoves(s: Link) returns (a: Action)
    requires Inv(s) && Asking(s) && s.client == AwaitHeader([])
    ensures Next(s, a) != s
  {
    var r, h := Last(s.requests), s.handler;
    assert r == s.requests[|s.requests| - 1];
    if s.handler.RecvBody? {
      assert h.header + h.got + s.up + [] == h.header + (h.got + s.up);
      FrontIsHeader(h.header, h.got + s.up, RequestType(r.0), r.1);
      a := if s.up == [] then HandlerWork(SomeAnswer(r.0)) else HandlerRecv(1);
    } else {
      a := HandlerRecv(1);
    }
  }

  // ---------- every exchange ends ----------

  /** What is left to do in an exchange: three for each byte to be sent, two for each byte in flight, and, until the
      request is served, enough for its response. */
  function ToDo(s: Link): nat {
    3 * |ToSend(s.client)| + 2 * |s.up| + 3 * |ToReply(s.handler)| + 2 * |s.down|
    + if |s.served| < |s.requests| then 3 * (HEADER_SIZE + ResponseSize(Last(s.requests).0)) + 1 else 0
  }

  /** Every step that changes anything brings the end of the exchange nearer. */
  lemma StepAdvances(s: Link, a: Action)
    requires Inv(s) && !s.client.Idle? && Waiting(s) && Next(s, a) != s
    ensures Next(s, a).requests == s.requests && ToDo(Next(s, a)) < ToDo(s)
  {
    match a
    case HandlerWork(answer) => WorkAdvances(s, answer);
    case _ =>
  }

  lemma WorkAdvances(s: Link, answer: Message)
    requires Inv(s) && !s.client.Idle? && HandlerWorkStep(s, answer) != s
    ensures HandlerWorkStep(s, answer).requests == s.requests && ToDo(HandlerWorkStep(s, answer)) < ToDo(s)
  {
    HandlerWorkKeeps(s, answer);
    LastAnswer(HandlerWorkStep(s, answer));
  }

  lemma AfterOne(acts: seq<Action>, a: Action)
    ensures After(acts + [a]) == Next(After(acts), a)
  {
    assert (acts + [a])[..|acts|] == acts;
  }

  lemma NextStep(acts: seq<Action>) returns (a: Action)
    requires !After(acts).client.Idle?
    ensures After(acts + [a]).requests == After(acts).requests && ToDo(After(acts + [a])) < ToDo(After(acts))
  {
    a := NeverStuck(acts);
    RunInv(acts);
    StepAdvances(After(acts), a);
    AfterOne(acts, a);
  }

  /** An exchange once begun can be brought to its end by steps of the two ends. */
  lemma {:induction false} ExchangeEnds(acts: seq<Action>) returns (more: seq<Action>)
    ensures After(acts + more).client.Idle? && After(acts + more).requests == After(acts).requests
    decreases ToDo(After(acts))
  {
    more := [];
    assert acts + more == acts;
    if !After(acts).client.Idle? {
      var a := NextStep(acts);
      var rest := ExchangeEnds(acts + [a]);
      assert acts + [a] + rest == acts + ([a] + rest);
      more := [a] + rest;
    }
  }

  /** Whenever the client is free, every request can be made and answered. */
  lemma RequestIsAnswered(acts: seq<Action>, k: Kind, body: Bytes) returns (more: seq<Action>)
    requires After(acts).client.Idle? && |body| == RequestSize(k)
    ensures var s, t := After(acts), After(acts + more);
            && t.client.Idle? && t.requests == s.requests + [(k, body)]
            && |t.received| == |s.received| + 1 && Last(t.received).kind == ResponseType(k)
  {
    AfterOne(acts, Start(k, body));
    var rest := ExchangeEnds(acts + [Start(k, body)]);
    assert acts + [Start(k, body)] + rest == acts + ([Start(k, body)] + rest);
    more := [Start(k, body)] + rest;
    LockstepHolds(acts);
    LockstepHolds(acts + more);
    assert Last(After(acts + more).requests) == (k, body);
  }

  /** No two messages of the protocol have the same type, and none has that of an error. */
  lemma TypesDiffer(j: Kind, k: Kind)
    ensures RequestType(j) != ResponseType(k)
    ensures j != k ==> RequestType(j) != RequestType(k) && ResponseType(j) != ResponseType(k)
    ensures ClientNetwork.MSG_TYPE_ERROR !in {RequestType(k), ResponseType(k)}
  {
  }

  /** Every response length fits the 16-bit field, and every request stays below the handler's limit. */
  lemma LengthsFit(k: Kind)
    ensures 0 < ResponseSize(k) < LENGTH_LIMIT && RequestSize(k) <= BODY_LIMIT
    ensures forall answer :: Answers(RequestType(k), answer) ==>
              ClientNetwork.ReadsBody(answer.kind, |answer.body|, ResponseType(k), ResponseSize(k))
  {
  }
}

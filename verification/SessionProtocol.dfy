/**
 Requests over two hops: SessionClient.Call and its reader (lsp/session_client.go), one
 HandleClient loop per connection, and sendRequest with the reader of the language server
 (cmd/lsp-session-manager/main.go), as one interleaved step system. A step is what one goroutine
 does under one lock, on one channel or on one connection. The invariant has a part for the
 calls, the connections, the session manager and the language server; each kind of step is shown to
 keep each part.
 */
module SessionProtocol {
  import opened Wrappers
  import opened JsonRpcId

  datatype Request = Request(name: string, params: string)
  datatype Reply = Result(value: string) | Failure(message: string)
  datatype Outcome = Value(value: string) | CallError(message: string)

  /** A call is named by its client and the id the client gave it. */
  datatype CallId = CallId(client: nat, seqNo: nat)

  datatype Phase =
    | Registered               // pending entry made, connection not read yet
    | Writing(conn: nat)       // connection read
    | Waiting                  // request written
    | Leaving(outcome: Outcome)   // outcome decided, deferred delete outstanding
    | Returned(outcome: Outcome)
  datatype Call = Call(request: Request, phase: Phase)

  /** The HandleClient goroutine of one connection. */
  datatype Handler =
    | Idle
    | Handling(seqNo: nat, request: Request)
    | Allocated(seqNo: nat, request: Request, id: int)
    | Awaiting(seqNo: nat, id: int)
    | Finishing(seqNo: nat, id: int, reply: Reply)   // deferred delete outstanding
    | Replying(seqNo: nat, reply: Reply)
    | Stopped

  datatype RequestLine = RequestLine(seqNo: nat, request: Request)
  datatype ResponseLine = ResponseLine(seqNo: nat, reply: Reply)
  datatype Connection = Connection(client: nat, up: bool, requests: seq<RequestLine>, handler: Handler,
                                   responses: seq<ResponseLine>)

  /** A message of the language server with its id as decoded, or bytes that are not a message. */
  datatype ServerMessage = Malformed | ServerMessage(id: Id, name: string, reply: Reply)

  /** History: how far a call's request has travelled. */
  datatype Stage = NotWritten | OnWire(conn: nat) | AtHandler(conn: nat) | Forwarded(conn: nat, id: int)

  datatype State = State(
    // clients
    lastId: map<nat, nat>,                       // SessionClient.reqID
    current: map<nat, Option<nat>>,              // SessionClient.conn
    clientPending: map<CallId, Option<Reply>>,   // SessionClient.pending, with each channel's buffer
    failing: map<nat, set<nat>>,                 // failAllPending holds the lock, these entries are left
    calls: map<CallId, Call>,
    // connections and their handlers
    conns: map<nat, Connection>,
    // session manager
    requestID: int,
    pending: map<int, Option<Reply>>,            // SessionManager.pending, with each channel's buffer
    // language server
    asked: map<int, Request>,
    answers: map<int, Reply>,
    output: seq<ServerMessage>,
    // history
    origin: map<int, CallId>,
    stage: map<CallId, Stage>,
    faults: set<(CallId, string)>)               // what went wrong for a call on this side of the server

  /** The methods handleAPIRequest forwards as requests. */
  predicate IsForwarded(name: string) {
    name in {
      "textDocument/hover", "textDocument/definition", "textDocument/references", "textDocument/documentSymbol",
      "textDocument/diagnostic", "textDocument/implementation", "textDocument/codeAction",
      "textDocument/formatting", "textDocument/rename", "textDocument/prepareRename",
      "textDocument/prepareCallHierarchy", "callHierarchy/incomingCalls", "callHierarchy/outgoingCalls",
      "workspace/symbol", "workspace/diagnostic"
    }
  }

  /** The id under which the manager's reader looks a message up, if it takes it for a response. */
  function RoutedId(m: ServerMessage): Option<int> {
    if m.ServerMessage? && m.id.IsSet() && m.name == "" then Some(m.id.AsInt64()) else None
  }

  function HeldId(h: Handler): Option<int> {
    if h.Allocated? || h.Awaiting? || h.Finishing? then Some(h.id) else None
  }

  function ToOutcome(r: Reply): Outcome {
    match r
    case Result(v) => Value(v)
    case Failure(m) => CallError(m)
  }

  // ----- the steps

  datatype Action =
    | ByNetwork(network: NetworkStep)
    | ByClient(step: ClientStep)
    | ByHandler(conn: nat, handlerStep: HandlerStep)
    | ByServer(server: ServerStep)

  datatype NetworkStep =
    | Dial(client: nat, conn: nat)
    | Disconnect(client: nat)
    | ConnectionDies(conn: nat)
    | LinesLost(conn: nat, keptRequests: nat, keptResponses: nat)

  datatype ClientStep =
    | Start(client: nat, request: Request)
    | TakeConn(call: CallId)
    | Write(call: CallId)
    | WriteFails(call: CallId)
    | Receive(call: CallId)
    | GiveUp(call: CallId)
    | Return(call: CallId)
    | Route(conn: nat)
    | FailBegin(client: nat)
    | FailOne(call: CallId)
    | FailEnd(client: nat)

  datatype HandlerStep =
    | ReadLine
    | ReplyLocally(reply: Reply)
    | Allocate
    | Forward
    | ForwardFails
    | TakeReply
    | TimeOut
    | Delete
    | SendReply
    | Stop

  datatype ServerStep =
    | ManagerRoute                                  // the manager's reader takes the next message
    | Answer(id: int, echo: Id, reply: Reply)       // the id may come back as a number or as its text
    | Say(message: ServerMessage)                   // anything that is not an answer to a request it was sent

  predicate NetworkEnabled(s: State, a: NetworkStep) {
    match a
    case Dial(client, conn) => client in s.lastId && client !in s.failing && conn !in s.conns
    case Disconnect(client) => client in s.lastId && client !in s.failing
    case ConnectionDies(conn) => conn in s.conns
    case LinesLost(conn, n, m) =>
      conn in s.conns && !s.conns[conn].up && n <= |s.conns[conn].requests| && m <= |s.conns[conn].responses|
  }

  function NetworkNext(s: State, a: NetworkStep): State
    requires NetworkEnabled(s, a)
  {
    match a
    case Dial(client, conn) =>
      s.(conns := s.conns[conn := Connection(client, true, [], Idle, [])], current := s.current[client := Some(conn)])
    case Disconnect(client) => s.(current := s.current[client := None])
    case ConnectionDies(conn) => s.(conns := s.conns[conn := s.conns[conn].(up := false)])
    case LinesLost(conn, n, m) =>
      var c := s.conns[conn];
      s.(conns := s.conns[conn := c.(requests := c.requests[..n], responses := c.responses[..m])])
  }

  predicate InPhase(s: State, call: CallId, phase: Phase) {
    call in s.calls && s.calls[call].phase == phase
  }

  function SetPhase(s: State, call: CallId, phase: Phase): map<CallId, Call>
    requires call in s.calls
  {
    s.calls[call := s.calls[call].(phase := phase)]
  }

  function FirstResponse(s: State, conn: nat): CallId
    requires conn in s.conns && s.conns[conn].responses != []
  {
    CallId(s.conns[conn].client, s.conns[conn].responses[0].seqNo)
  }

  predicate ClientEnabled(s: State, a: ClientStep) {
    match a
    case Start(client, _) =>
      client in s.lastId && client !in s.failing && client in s.current && s.current[client].Some?
    case TakeConn(call) => call.client !in s.failing && InPhase(s, call, Registered)
    case Write(call) => call in s.calls && s.calls[call].phase.Writing? && s.calls[call].phase.conn in s.conns
    case WriteFails(call) => call in s.calls && call.client !in s.failing && s.calls[call].phase.Writing?
    case Receive(call) => InPhase(s, call, Waiting) && call in s.clientPending && s.clientPending[call].Some?
    case GiveUp(call) => InPhase(s, call, Waiting)
    case Return(call) => call in s.calls && call.client !in s.failing && s.calls[call].phase.Leaving?
    case Route(conn) =>
      // a full channel blocks this reader
      conn in s.conns && s.conns[conn].client !in s.failing && s.conns[conn].responses != [] &&
      (FirstResponse(s, conn) in s.clientPending ==> s.clientPending[FirstResponse(s, conn)] == None)
    case FailBegin(client) => client in s.lastId && client !in s.failing
    case FailOne(call) =>
      call.client in s.failing && call.seqNo in s.failing[call.client] &&
      call in s.clientPending && s.clientPending[call] == None
    case FailEnd(client) => client in s.failing && s.failing[client] == {}
  }

  /** A reply goes into its call's channel; a reply to a call that is no longer pending is dropped. */
  function Buffer(pending: map<CallId, Option<Reply>>, call: CallId, reply: Reply): map<CallId, Option<Reply>> {
    if call in pending then pending[call := Some(reply)] else pending
  }

  function ClientNext(s: State, a: ClientStep): State
    requires ClientEnabled(s, a)
  {
    match a
    case Start(client, request) =>
      var call := CallId(client, s.lastId[client] + 1);
      s.(lastId := s.lastId[client := s.lastId[client] + 1],
         calls := s.calls[call := Call(request, Registered)],
         clientPending := s.clientPending[call := None],
         stage := s.stage[call := NotWritten])
    case TakeConn(call) =>
      var phase := if call.client in s.current && s.current[call.client].Some?
                   then Writing(s.current[call.client].value)
                   else Leaving(CallError("connection lost before sending request"));
      s.(calls := SetPhase(s, call, phase),
         faults := if phase.Leaving? then s.faults + {(call, phase.outcome.message)} else s.faults)
    case Write(call) =>
      var conn := s.calls[call].phase.conn;
      var c := s.conns[conn];
      s.(calls := SetPhase(s, call, Waiting),
         conns := s.conns[conn := c.(requests := c.requests + [RequestLine(call.seqNo, s.calls[call].request)])],
         stage := s.stage[call := OnWire(conn)])
    case WriteFails(call) =>
      s.(calls := SetPhase(s, call, Leaving(CallError("failed to send request"))),
         current := s.current[call.client := None],
         faults := s.faults + {(call, "failed to send request")})
    case Receive(call) =>
      s.(calls := SetPhase(s, call, Leaving(ToOutcome(s.clientPending[call].value))),
         clientPending := s.clientPending[call := None])
    case GiveUp(call) =>
      s.(calls := SetPhase(s, call, Leaving(CallError("context done"))),
         faults := s.faults + {(call, "context done")})
    case Return(call) =>
      s.(calls := SetPhase(s, call, Returned(s.calls[call].phase.outcome)),
         clientPending := s.clientPending - {call})
    case Route(conn) =>
      s.(conns := s.conns[conn := s.conns[conn].(responses := s.conns[conn].responses[1..])],
         clientPending := Buffer(s.clientPending, FirstResponse(s, conn), s.conns[conn].responses[0].reply))
    case FailBegin(client) =>
      s.(failing := s.failing[client := set call | call in s.clientPending && call.client == client :: call.seqNo])
    case FailOne(call) =>
      s.(clientPending := s.clientPending[call := Some(Failure("connection lost"))],
         failing := s.failing[call.client := s.failing[call.client] - {call.seqNo}],
         faults := s.faults + {(call, "connection lost")})
    case FailEnd(client) => s.(failing := s.failing - {client})
  }

  predicate HandlerEnabled(s: State, conn: nat, a: HandlerStep) {
    conn in s.conns &&
    var c := s.conns[conn];
    match a
    case ReadLine => c.handler == Idle && c.requests != []
    case ReplyLocally(_) => c.handler.Handling? && !IsForwarded(c.handler.request.name)
    case Allocate => c.handler.Handling? && IsForwarded(c.handler.request.name)
    case Forward => c.handler.Allocated?
    case ForwardFails => c.handler.Allocated?
    case TakeReply => c.handler.Awaiting? && c.handler.id in s.pending && s.pending[c.handler.id].Some?
    case TimeOut => c.handler.Awaiting?
    case Delete => c.handler.Finishing?
    case SendReply => c.handler.Replying?
    case Stop => c.handler == Idle && !c.up
  }

  function SetHandler(s: State, conn: nat, h: Handler): map<nat, Connection>
    requires conn in s.conns
  {
    s.conns[conn := s.conns[conn].(handler := h)]
  }

  function HandlerNext(s: State, conn: nat, a: HandlerStep): State
    requires HandlerEnabled(s, conn, a)
  {
    var c, h := s.conns[conn], s.conns[conn].handler;
    match a
    case ReadLine =>
      var line := c.requests[0];
      s.(conns := s.conns[conn := c.(requests := c.requests[1..], handler := Handling(line.seqNo, line.request))],
         stage := s.stage[CallId(c.client, line.seqNo) := AtHandler(conn)])
    case ReplyLocally(reply) => s.(conns := SetHandler(s, conn, Replying(h.seqNo, reply)))
    case Allocate =>
      var id, call := s.requestID + 1, CallId(c.client, h.seqNo);
      s.(requestID := id,
         pending := s.pending[id := None],
         conns := SetHandler(s, conn, Allocated(h.seqNo, h.request, id)),
         origin := s.origin[id := call],
         stage := s.stage[call := Forwarded(conn, id)])
    case Forward =>
      s.(conns := SetHandler(s, conn, Awaiting(h.seqNo, h.id)), asked := s.asked[h.id := h.request])
    case ForwardFails =>
      s.(conns := SetHandler(s, conn, Finishing(h.seqNo, h.id, Failure("write failed"))),
         faults := s.faults + {(CallId(c.client, h.seqNo), "write failed")})
    case TakeReply =>
      s.(conns := SetHandler(s, conn, Finishing(h.seqNo, h.id, s.pending[h.id].value)),
         pending := s.pending[h.id := None])
    case TimeOut =>
      s.(conns := SetHandler(s, conn, Finishing(h.seqNo, h.id, Failure("context deadline exceeded"))),
         faults := s.faults + {(CallId(c.client, h.seqNo), "context deadline exceeded")})
    case Delete => s.(conns := SetHandler(s, conn, Replying(h.seqNo, h.reply)), pending := s.pending - {h.id})
    case SendReply =>
      s.(conns := s.conns[conn := c.(handler := Idle, responses := c.responses + [ResponseLine(h.seqNo, h.reply)])])
    case Stop => s.(conns := SetHandler(s, conn, Stopped))
  }

  /** A full channel would block the reader. */
  predicate CanDeliver(pending: map<int, Option<Reply>>, m: ServerMessage) {
    RoutedId(m).Some? && RoutedId(m).value in pending ==> pending[RoutedId(m).value] == None
  }

  predicate ServerEnabled(s: State, a: ServerStep) {
    match a
    case ManagerRoute =>
      s.output != [] && CanDeliver(s.pending, s.output[0])
    case Answer(id, echo, _) => id in s.asked && id !in s.answers && echo.IsSet() && echo.AsInt64() == id
    case Say(m) => RoutedId(m) == None || RoutedId(m) == Some(0)
  }

  /** A response goes into the channel its id selects; everything else changes no channel. */
  function Deliver(pending: map<int, Option<Reply>>, m: ServerMessage): map<int, Option<Reply>> {
    if RoutedId(m).Some? && RoutedId(m).value in pending then pending[RoutedId(m).value := Some(m.reply)] else pending
  }

  function ServerNext(s: State, a: ServerStep): State
    requires ServerEnabled(s, a)
  {
    match a
    case ManagerRoute => s.(output := s.output[1..], pending := Deliver(s.pending, s.output[0]))
    case Answer(id, echo, reply) =>
      s.(answers := s.answers[id := reply], output := s.output + [ServerMessage(echo, "", reply)])
    case Say(m) => s.(output := s.output + [m])
  }

  predicate Enabled(s: State, a: Action) {
    match a
    case ByNetwork(n) => NetworkEnabled(s, n)
    case ByClient(c) => ClientEnabled(s, c)
    case ByHandler(conn, h) => HandlerEnabled(s, conn, h)
    case ByServer(v) => ServerEnabled(s, v)
  }

  function Next(s: State, a: Action): State
    requires Enabled(s, a)
  {
    match a
    case ByNetwork(n) => NetworkNext(s, n)
    case ByClient(c) => ClientNext(s, c)
    case ByHandler(conn, h) => HandlerNext(s, conn, h)
    case ByServer(v) => ServerNext(s, v)
  }

  // ----- the invariant

  /** The server gave exactly this answer to the call's own request. */
  ghost predicate Answered(s: State, call: CallId, reply: Reply) {
    && call in s.calls && call in s.stage && s.stage[call].Forwarded?
    && var id := s.stage[call].id;
    && id in s.origin && s.origin[id] == call
    && id in s.asked && s.asked[id] == s.calls[call].request
    && id in s.answers && s.answers[id] == reply
  }

  /** A reply held for a forwarded call is what the server answered to its own request, or tells a fault of its own. */
  ghost predicate Justified(s: State, call: CallId, reply: Reply) {
    && call in s.calls && call in s.stage
    && (IsForwarded(s.calls[call].request.name) ==> Answered(s, call, reply) || Faulty(s, call, reply))
  }

  ghost predicate Faulty(s: State, call: CallId, reply: Reply) {
    reply.Failure? && (call, reply.message) in s.faults
  }

  ghost predicate OutcomeJustified(s: State, call: CallId, phase: Phase) {
    phase.Leaving? || phase.Returned? ==>
      match phase.outcome
      case Value(v) => Justified(s, call, Result(v))
      case CallError(m) => Justified(s, call, Failure(m))
  }

  ghost predicate CallOk(s: State, call: CallId)
    requires call in s.calls
  {
    var phase := s.calls[call].phase;
    && call in s.stage
    && call.client in s.lastId && 1 <= call.seqNo <= s.lastId[call.client]
    && (call in s.clientPending <==> !phase.Returned?)
    && (phase.Registered? || phase.Writing? ==> s.stage[call] == NotWritten)
    && (phase.Writing? ==> phase.conn in s.conns && s.conns[phase.conn].client == call.client)
    && OutcomeJustified(s, call, phase)
  }

  ghost predicate CallsOk(s: State) {
    && (forall call :: call in s.calls ==> CallOk(s, call))
    && (forall call :: call in s.clientPending ==> call in s.calls)
    && (forall call :: call in s.stage ==> call in s.calls)
  }

  ghost predicate SlotsOk(s: State) {
    forall call :: call in s.clientPending && s.clientPending[call].Some? ==>
      Justified(s, call, s.clientPending[call].value)
  }

  ghost predicate CurrentOk(s: State) {
    forall client :: client in s.current && s.current[client].Some? ==>
      s.current[client].value in s.conns && s.conns[s.current[client].value].client == client
  }

  ghost predicate FailingOk(s: State) {
    && (forall client, n :: client in s.failing && n in s.failing[client] ==> CallId(client, n) in s.clientPending)
    && (forall call :: call in s.clientPending && call.client in s.failing && call.seqNo !in s.failing[call.client] ==>
          call in s.calls && (s.clientPending[call].Some? || s.calls[call].phase.Leaving?))
  }

  ghost predicate LineOk(s: State, conn: nat, line: RequestLine)
    requires conn in s.conns
  {
    var call := CallId(s.conns[conn].client, line.seqNo);
    call in s.calls && call in s.stage && s.calls[call].request == line.request && s.stage[call] == OnWire(conn)
  }

  ghost predicate LinesOk(s: State, conn: nat)
    requires conn in s.conns
  {
    var lines := s.conns[conn].requests;
    && (forall i :: 0 <= i < |lines| ==> LineOk(s, conn, lines[i]))
    && (forall i, j :: 0 <= i < j < |lines| ==> lines[i].seqNo != lines[j].seqNo)
  }

  ghost predicate ResponsesOk(s: State, conn: nat)
    requires conn in s.conns
  {
    var c := s.conns[conn];
    forall i :: 0 <= i < |c.responses| ==>
      Justified(s, CallId(c.client, c.responses[i].seqNo), c.responses[i].reply)
  }

  ghost predicate HandlerOk(s: State, conn: nat)
    requires conn in s.conns
  {
    var c := s.conns[conn];
    match c.handler
    case Handling(n, request) =>
      var call := CallId(c.client, n);
      call in s.calls && call in s.stage && s.calls[call].request == request && s.stage[call] == AtHandler(conn)
    case Allocated(n, request, id) =>
      var call := CallId(c.client, n);
      HoldsId(s, conn, call, id) && s.calls[call].request == request
    case Awaiting(n, id) => HoldsId(s, conn, CallId(c.client, n), id)
    case Finishing(n, id, reply) =>
      HoldsId(s, conn, CallId(c.client, n), id) && Justified(s, CallId(c.client, n), reply)
    case Replying(n, reply) => Justified(s, CallId(c.client, n), reply)
    case _ => true
  }

  ghost predicate HoldsId(s: State, conn: nat, call: CallId, id: int) {
    && call in s.calls && call in s.stage && s.stage[call] == Forwarded(conn, id)
    && id in s.pending && id in s.origin && s.origin[id] == call
  }

  ghost predicate ConnsOk(s: State) {
    forall conn :: conn in s.conns ==> LinesOk(s, conn) && HandlerOk(s, conn) && ResponsesOk(s, conn)
  }

  ghost predicate Held(s: State, id: int) {
    exists conn :: conn in s.conns && HeldId(s.conns[conn].handler) == Some(id)
  }

  ghost predicate ManagerOk(s: State) {
    && s.requestID >= 0
    && (forall id :: id in s.origin ==>
          id <= s.requestID && s.origin[id] in s.calls && s.origin[id] in s.stage &&
          s.stage[s.origin[id]].Forwarded? && s.stage[s.origin[id]].id == id)
    && (forall id :: id in s.pending ==> id > 0 && id in s.origin && Held(s, id))
    && (forall id :: id in s.pending && s.pending[id].Some? ==> id in s.answers && s.answers[id] == s.pending[id].value)
  }

  ghost predicate ServerOk(s: State) {
    && (forall id :: id in s.asked ==>
          id > 0 && id in s.origin && s.origin[id] in s.calls && s.asked[id] == s.calls[s.origin[id]].request)
    && (forall id :: id in s.answers ==> id in s.asked)
    && (forall i :: 0 <= i < |s.output| ==> OutputOk(s, s.output[i]))
    && DistinctAnswers(s.output)
  }

  ghost predicate IsAnswer(m: ServerMessage) {
    RoutedId(m).Some? && RoutedId(m).value != 0
  }

  /** No two queued messages answer the same request. */
  ghost predicate DistinctAnswers(output: seq<ServerMessage>) {
    forall i, j :: 0 <= i < j < |output| && IsAnswer(output[i]) ==> RoutedId(output[i]) != RoutedId(output[j])
  }

  ghost predicate OutputOk(s: State, m: ServerMessage) {
    IsAnswer(m) ==>
      (var id := RoutedId(m).value;
       id in s.answers && s.answers[id] == m.reply && (id in s.pending ==> s.pending[id] == None))
  }

  ghost predicate Inv(s: State) {
    CallsOk(s) && SlotsOk(s) && CurrentOk(s) && FailingOk(s) && ConnsOk(s) && ManagerOk(s) && ServerOk(s)
  }

  // ----- every step keeps the invariant

  ghost predicate Grows(s: State, t: State) {
    && (forall call :: call in s.calls ==> call in t.calls && t.calls[call].request == s.calls[call].request)
    && (forall call :: call in s.stage ==> call in t.stage)
    && (forall call :: call in s.stage && s.stage[call].Forwarded? ==> t.stage[call] == s.stage[call])
    && (forall id :: id in s.origin ==> id in t.origin && t.origin[id] == s.origin[id])
    && (forall id :: id in s.asked ==> id in t.asked && t.asked[id] == s.asked[id])
    && (forall id :: id in s.answers ==> id in t.answers && t.answers[id] == s.answers[id])
    && s.faults <= t.faults
  }

  lemma JustifiedStays(s: State, t: State, call: CallId, reply: Reply)
    requires Grows(s, t) && Justified(s, call, reply)
    ensures Justified(t, call, reply)
  {
  }

  /** Slots that hold what they held, or a fault, stay justified. */
  lemma SlotsStay(s: State, t: State)
    requires Grows(s, t) && SlotsOk(s)
    requires forall call :: call in t.clientPending && t.clientPending[call].Some? ==>
               (call in t.calls && call in t.stage && Faulty(t, call, t.clientPending[call].value))
               || (call in s.clientPending && s.clientPending[call] == t.clientPending[call])
    ensures SlotsOk(t)
  {
    forall call | call in t.clientPending && t.clientPending[call].Some?
      ensures Justified(t, call, t.clientPending[call].value)
    {
      if call in s.clientPending && s.clientPending[call] == t.clientPending[call] {
        JustifiedStays(s, t, call, s.clientPending[call].value);
      }
    }
  }

  lemma OutcomeStays(s: State, t: State, call: CallId, phase: Phase)
    requires Grows(s, t) && OutcomeJustified(s, call, phase)
    ensures OutcomeJustified(t, call, phase)
  {
    if phase.Leaving? || phase.Returned? {
      match phase.outcome {
        case Value(v) => JustifiedStays(s, t, call, Result(v));
        case CallError(m) => JustifiedStays(s, t, call, Failure(m));
      }
    }
  }

  // What a step may change around the parts of a connection it does not touch.

  lemma LinesFrame(s: State, t: State, conn: nat)
    requires conn in s.conns && conn in t.conns && LinesOk(s, conn) && Grows(s, t)
    requires t.conns[conn].client == s.conns[conn].client
    requires t.conns[conn].requests == s.conns[conn].requests
    requires forall call :: call in s.stage && s.stage[call] == OnWire(conn) ==> t.stage[call] == s.stage[call]
    ensures LinesOk(t, conn)
  {
    forall i | 0 <= i < |t.conns[conn].requests|
      ensures LineOk(t, conn, t.conns[conn].requests[i])
    {
      assert LineOk(s, conn, s.conns[conn].requests[i]);
    }
  }

  lemma ResponsesFrame(s: State, t: State, conn: nat)
    requires conn in s.conns && conn in t.conns && ResponsesOk(s, conn) && Grows(s, t)
    requires t.conns[conn].client == s.conns[conn].client
    requires t.conns[conn].responses == s.conns[conn].responses
    ensures ResponsesOk(t, conn)
  {
    var c := s.conns[conn];
    forall i | 0 <= i < |c.responses|
      ensures Justified(t, CallId(c.client, c.responses[i].seqNo), c.responses[i].reply)
    {
      JustifiedStays(s, t, CallId(c.client, c.responses[i].seqNo), c.responses[i].reply);
    }
  }

  lemma HandlerFrame(s: State, t: State, conn: nat)
    requires conn in s.conns && conn in t.conns && HandlerOk(s, conn) && Grows(s, t)
    requires t.conns[conn].client == s.conns[conn].client
    requires t.conns[conn].handler == s.conns[conn].handler
    requires forall call :: call in s.stage && s.stage[call] == AtHandler(conn) ==> t.stage[call] == s.stage[call]
    requires HeldId(s.conns[conn].handler).Some? ==> HeldId(s.conns[conn].handler).value in t.pending
    ensures HandlerOk(t, conn)
  {
    var h := s.conns[conn].handler;
    if h.Finishing? || h.Replying? {
      JustifiedStays(s, t, CallId(s.conns[conn].client, h.seqNo), h.reply);
    }
  }

  /** The stages of calls on this connection's side of the wire stay, and so does the id its handler holds. */
  ghost predicate ConnUnaffected(s: State, t: State, conn: nat)
    requires conn in s.conns
  {
    && (forall call :: call in s.stage && (s.stage[call] == OnWire(conn) || s.stage[call] == AtHandler(conn)) ==>
          call in t.stage && t.stage[call] == s.stage[call])
    && (HeldId(s.conns[conn].handler).Some? ==> HeldId(s.conns[conn].handler).value in t.pending)
  }

  lemma ConnFrame(s: State, t: State, conn: nat)
    requires ConnsOk(s) && Grows(s, t) && conn in s.conns && conn in t.conns
    requires t.conns[conn] == s.conns[conn] && ConnUnaffected(s, t, conn)
    ensures LinesOk(t, conn) && HandlerOk(t, conn) && ResponsesOk(t, conn)
  {
    LinesFrame(s, t, conn);
    HandlerFrame(s, t, conn);
    ResponsesFrame(s, t, conn);
  }

  /** What a step may change around a call it does not touch. */
  lemma CallFrame(s: State, t: State, call: CallId)
    requires call in s.calls && CallOk(s, call) && Grows(s, t)
    requires call in t.calls && t.calls[call] == s.calls[call]
    requires s.stage[call] == NotWritten ==> t.stage[call] == NotWritten
    requires call.client in t.lastId && t.lastId[call.client] >= s.lastId[call.client]
    requires call in t.clientPending <==> call in s.clientPending
    requires forall conn :: conn in s.conns ==> conn in t.conns && t.conns[conn].client == s.conns[conn].client
    ensures CallOk(t, call)
  {
    OutcomeStays(s, t, call, s.calls[call].phase);
  }

  /** Queued server messages stay as they should be while answers grow and no reply is buffered. */
  lemma OutputStays(s: State, t: State)
    requires forall i :: 0 <= i < |s.output| ==> OutputOk(s, s.output[i])
    requires forall id :: id in s.answers ==> id in t.answers && t.answers[id] == s.answers[id]
    requires forall id :: id in t.pending && t.pending[id] != None ==> id in s.pending && s.pending[id] == t.pending[id]
    ensures forall i :: 0 <= i < |s.output| ==> OutputOk(t, s.output[i])
  {
    forall i | 0 <= i < |s.output|
      ensures OutputOk(t, s.output[i])
    {
      assert OutputOk(s, s.output[i]);
    }
  }

  lemma HeldStays(s: State, t: State, id: int)
    requires Held(s, id)
    requires forall conn :: conn in s.conns && HeldId(s.conns[conn].handler).Some? ==>
               conn in t.conns && HeldId(t.conns[conn].handler) == HeldId(s.conns[conn].handler)
    ensures Held(t, id)
  {
    var conn :| conn in s.conns && HeldId(s.conns[conn].handler) == Some(id);
    assert conn in t.conns && HeldId(t.conns[conn].handler) == Some(id);
  }

  /** Connections may change while manager and server keep theirs. */
  lemma SameManagerOk(s: State, t: State)
    requires ManagerOk(s) && ServerOk(s) && Grows(s, t)
    requires t.requestID == s.requestID && t.pending == s.pending && t.origin == s.origin
    requires t.asked == s.asked && t.answers == s.answers && t.output == s.output
    requires forall conn :: conn in s.conns ==>
               conn in t.conns && HeldId(t.conns[conn].handler) == HeldId(s.conns[conn].handler)
    ensures ManagerOk(t) && ServerOk(t)
  {
    forall id | id in t.pending
      ensures Held(t, id)
    {
      HeldStays(s, t, id);
    }
    OutputStays(s, t);
  }

  // ----- client steps on calls: connections, manager and server stay as they are

  ghost predicate OnlyCalls(s: State, t: State) {
    && t.conns == s.conns && t.requestID == s.requestID && t.pending == s.pending
    && t.asked == s.asked && t.answers == s.answers && t.output == s.output && t.origin == s.origin
    && (forall call :: call in s.calls ==> call in t.calls && t.calls[call].request == s.calls[call].request)
    && (forall call :: call in s.stage ==> call in t.stage && t.stage[call] == s.stage[call])
    && s.faults <= t.faults
  }

  lemma OnlyCallsKeepsConns(s: State, t: State)
    requires ConnsOk(s) && Grows(s, t) && OnlyCalls(s, t)
    requires forall conn :: conn in s.conns ==> ConnUnaffected(s, t, conn)
    ensures ConnsOk(t)
  {
    forall conn | conn in t.conns
      ensures LinesOk(t, conn) && HandlerOk(t, conn) && ResponsesOk(t, conn)
    {
      assert HandlerOk(s, conn);
      ConnFrame(s, t, conn);
    }
  }

  predicate IsOnlyCalls(a: ClientStep) {
    !a.Write? && !a.Route?
  }

  lemma FreshCall(s: State, client: nat)
    requires CallsOk(s) && client in s.lastId
    ensures CallId(client, s.lastId[client] + 1) !in s.calls
    ensures CallId(client, s.lastId[client] + 1) !in s.stage
  {
    var call := CallId(client, s.lastId[client] + 1);
    assert call in s.calls ==> CallOk(s, call);
  }

  lemma StartOnlyCalls(s: State, client: nat, request: Request)
    requires CallsOk(s) && ClientEnabled(s, Start(client, request))
    ensures OnlyCalls(s, ClientNext(s, Start(client, request)))
  {
    FreshCall(s, client);
  }

  lemma PhaseOnlyCalls(s: State, a: ClientStep)
    requires ClientEnabled(s, a) && IsOnlyCalls(a) && !a.Start?
    ensures OnlyCalls(s, ClientNext(s, a))
  {
    var t := ClientNext(s, a);
    assert t.stage == s.stage;
    assert t.calls == s.calls || t.calls == SetPhase(s, a.call, t.calls[a.call].phase);
  }

  lemma ClientStepOnlyCalls(s: State, a: ClientStep)
    requires CallsOk(s) && ClientEnabled(s, a) && IsOnlyCalls(a)
    ensures OnlyCalls(s, ClientNext(s, a))
  {
    if a.Start? {
      StartOnlyCalls(s, a.client, a.request);
    } else {
      PhaseOnlyCalls(s, a);
    }
  }

  lemma StartCallsOk(s: State, client: nat, request: Request)
    requires CallsOk(s) && ClientEnabled(s, Start(client, request))
    ensures CallsOk(ClientNext(s, Start(client, request)))
  {
    var t := ClientNext(s, Start(client, request));
    FreshCall(s, client);
    forall call | call in s.calls
      ensures CallOk(t, call)
    {
      CallFrame(s, t, call);
    }
  }

  /** One call moves on to `phase`; its pending entry goes exactly when it returns. */
  ghost predicate PhaseStep(s: State, t: State, changed: CallId, phase: Phase) {
    && changed in s.calls && changed in s.stage && !s.calls[changed].phase.Returned? && !phase.Registered?
    && t.calls == SetPhase(s, changed, phase)
    && t.stage == s.stage && t.lastId == s.lastId && t.conns == s.conns
    && t.origin == s.origin && t.asked == s.asked && t.answers == s.answers && s.faults <= t.faults
    && (phase.Writing? ==> s.stage[changed] == NotWritten && phase.conn in s.conns
                           && s.conns[phase.conn].client == changed.client)
    && OutcomeJustified(t, changed, phase)
    && (forall call :: call in t.clientPending <==> call in s.clientPending && !(call == changed && phase.Returned?))
    && (forall call :: call in t.clientPending && t.clientPending[call].Some? ==>
          t.clientPending[call] == s.clientPending[call])
  }

  lemma PhaseStepCallsOk(s: State, t: State, changed: CallId, phase: Phase)
    requires CallsOk(s) && PhaseStep(s, t, changed, phase)
    ensures CallsOk(t)
  {
    assert CallOk(s, changed);
    assert CallOk(t, changed);
    forall call | call in t.calls && call != changed
      ensures CallOk(t, call)
    {
      CallFrame(s, t, call);
    }
  }

  ghost predicate SameHistory(s: State, t: State) {
    && t.calls == s.calls && t.stage == s.stage && t.lastId == s.lastId
    && t.origin == s.origin && t.asked == s.asked && t.answers == s.answers && s.faults <= t.faults
  }

  ghost predicate SameOwners(s: State, t: State) {
    forall conn :: conn in s.conns ==> conn in t.conns && t.conns[conn].client == s.conns[conn].client
  }

  lemma SameCallsOk(s: State, t: State)
    requires CallsOk(s) && SameHistory(s, t) && SameOwners(s, t)
    requires t.clientPending.Keys == s.clientPending.Keys
    ensures CallsOk(t)
  {
    forall call | call in t.calls
      ensures CallOk(t, call)
    {
      CallFrame(s, t, call);
    }
  }

  lemma FailStepCallsOk(s: State, a: ClientStep)
    requires CallsOk(s) && ClientEnabled(s, a) && IsFail(a)
    ensures CallsOk(ClientNext(s, a))
  {
    var t := ClientNext(s, a);
    assert SameHistory(s, t) && t.conns == s.conns;
    SameCallsOk(s, t);
  }

  lemma ReplyStepCallsOk(s: State, a: ClientStep)
    requires CallsOk(s) && SlotsOk(s) && ClientEnabled(s, a) && (a.Receive? || a.Return?)
    ensures CallsOk(ClientNext(s, a))
  {
    if a.Receive? {
      ReceiveStep(s, a);
    } else {
      ReturnStep(s, a);
    }
    PhaseStepCallsOk(s, ClientNext(s, a), a.call, ClientNext(s, a).calls[a.call].phase);
  }

  lemma ReceiveStep(s: State, a: ClientStep)
    requires CallsOk(s) && SlotsOk(s) && ClientEnabled(s, a) && a.Receive?
    ensures PhaseStep(s, ClientNext(s, a), a.call, ClientNext(s, a).calls[a.call].phase)
  {
    assert CallOk(s, a.call);
  }

  lemma ReturnStep(s: State, a: ClientStep)
    requires CallsOk(s) && ClientEnabled(s, a) && a.Return?
    ensures PhaseStep(s, ClientNext(s, a), a.call, ClientNext(s, a).calls[a.call].phase)
  {
    assert CallOk(s, a.call);
  }

  lemma GiveUpStep(s: State, a: ClientStep)
    requires CallsOk(s) && ClientEnabled(s, a) && (a.GiveUp? || a.WriteFails?)
    ensures PhaseStep(s, ClientNext(s, a), a.call, ClientNext(s, a).calls[a.call].phase)
  {
    assert CallOk(s, a.call);
  }

  lemma TakeConnStep(s: State, a: ClientStep)
    requires CallsOk(s) && CurrentOk(s) && ClientEnabled(s, a) && a.TakeConn?
    ensures PhaseStep(s, ClientNext(s, a), a.call, ClientNext(s, a).calls[a.call].phase)
  {
    assert CallOk(s, a.call);
  }

  lemma ErrorStepCallsOk(s: State, a: ClientStep)
    requires CallsOk(s) && CurrentOk(s) && ClientEnabled(s, a) && (a.TakeConn? || a.WriteFails? || a.GiveUp?)
    ensures CallsOk(ClientNext(s, a))
  {
    var t := ClientNext(s, a);
    if a.TakeConn? {
      TakeConnStep(s, a);
    } else {
      GiveUpStep(s, a);
    }
    PhaseStepCallsOk(s, t, a.call, t.calls[a.call].phase);
  }

  lemma ClientStepCallsOk(s: State, a: ClientStep)
    requires CallsOk(s) && SlotsOk(s) && CurrentOk(s) && ClientEnabled(s, a) && IsOnlyCalls(a)
    ensures CallsOk(ClientNext(s, a))
  {
    if a.Start? {
      StartCallsOk(s, a.client, a.request);
    } else if a.Receive? || a.Return? {
      ReplyStepCallsOk(s, a);
    } else if a.TakeConn? || a.WriteFails? || a.GiveUp? {
      ErrorStepCallsOk(s, a);
    } else {
      FailStepCallsOk(s, a);
    }
  }

  lemma ClientStepSlots(s: State, a: ClientStep)
    requires CallsOk(s) && ClientEnabled(s, a) && IsOnlyCalls(a)
    ensures var t := ClientNext(s, a);
      forall call :: call in t.clientPending && t.clientPending[call].Some? ==>
        (call in t.calls && call in t.stage && Faulty(t, call, t.clientPending[call].value))
        || (call in s.clientPending && s.clientPending[call] == t.clientPending[call])
  {
  }

  lemma ClientStepSlotsOk(s: State, a: ClientStep)
    requires CallsOk(s) && SlotsOk(s) && ClientEnabled(s, a) && IsOnlyCalls(a)
    ensures SlotsOk(ClientNext(s, a))
  {
    ClientStepOnlyCalls(s, a);
    ClientStepSlots(s, a);
    SlotsStay(s, ClientNext(s, a));
  }

  predicate IsFail(a: ClientStep) {
    a.FailBegin? || a.FailOne? || a.FailEnd?
  }

  lemma FailStepFailing(s: State, a: ClientStep)
    requires CallsOk(s) && FailingOk(s) && ClientEnabled(s, a) && IsFail(a)
    ensures FailingOk(ClientNext(s, a))
  {
    if a.FailOne? {
      FailOneFailing(s, a.call);
    } else {
      FailSpanFailing(s, a);
    }
  }

  lemma FailOneFailing(s: State, call: CallId)
    requires CallsOk(s) && FailingOk(s) && ClientEnabled(s, FailOne(call))
    ensures FailingOk(ClientNext(s, FailOne(call)))
  {
  }

  lemma FailSpanFailing(s: State, a: ClientStep)
    requires CallsOk(s) && FailingOk(s) && ClientEnabled(s, a) && (a.FailBegin? || a.FailEnd?)
    ensures FailingOk(ClientNext(s, a))
  {
  }

  lemma PhaseStepFailing(s: State, a: ClientStep)
    requires CallsOk(s) && FailingOk(s) && ClientEnabled(s, a) && IsOnlyCalls(a) && !IsFail(a)
    ensures FailingOk(ClientNext(s, a))
  {
    if a.Start? || a.Return? {
      TableStepFailing(s, a);
    } else {
      WaitStepFailing(s, a);
    }
  }

  lemma TableStepFailing(s: State, a: ClientStep)
    requires FailingOk(s) && ClientEnabled(s, a) && (a.Start? || a.Return?)
    ensures FailingOk(ClientNext(s, a))
  {
    assert ClientNext(s, a).failing == s.failing;
  }

  lemma WaitStepFailing(s: State, a: ClientStep)
    requires FailingOk(s) && ClientEnabled(s, a) && (a.TakeConn? || a.WriteFails? || a.Receive? || a.GiveUp?)
    ensures FailingOk(ClientNext(s, a))
  {
    assert ClientNext(s, a).failing == s.failing;
  }

  lemma ClientStepFailing(s: State, a: ClientStep)
    requires CallsOk(s) && FailingOk(s) && ClientEnabled(s, a) && IsOnlyCalls(a)
    ensures FailingOk(ClientNext(s, a))
  {
    if IsFail(a) {
      FailStepFailing(s, a);
    } else {
      PhaseStepFailing(s, a);
    }
  }

  lemma ClientStepCurrent(s: State, a: ClientStep)
    requires CurrentOk(s) && ClientEnabled(s, a) && IsOnlyCalls(a)
    ensures CurrentOk(ClientNext(s, a))
  {
  }

  // ----- the two client steps that touch a connection

  lemma WriteGrows(s: State, call: CallId)
    requires CallsOk(s) && ClientEnabled(s, Write(call))
    ensures Grows(s, ClientNext(s, Write(call)))
  {
    assert CallOk(s, call);
  }

  lemma WriteConnsOk(s: State, call: CallId)
    requires CallsOk(s) && ConnsOk(s) && ClientEnabled(s, Write(call))
    ensures ConnsOk(ClientNext(s, Write(call)))
  {
    var t, conn := ClientNext(s, Write(call)), s.calls[call].phase.conn;
    WriteGrows(s, call);
    assert CallOk(s, call);
    assert t.pending == s.pending && t.stage == s.stage[call := OnWire(conn)];
    assert LineOk(t, conn, RequestLine(call.seqNo, s.calls[call].request));
    PushKeepsConns(s, t, conn, RequestLine(call.seqNo, s.calls[call].request));
  }

  lemma PushKeepsConns(s: State, t: State, conn: nat, line: RequestLine)
    requires ConnsOk(s) && conn in s.conns && Grows(s, t) && t.pending == s.pending
    requires t.conns == s.conns[conn := s.conns[conn].(requests := s.conns[conn].requests + [line])]
    requires LineOk(t, conn, line)
    requires var call := CallId(s.conns[conn].client, line.seqNo);
             call in s.stage && s.stage[call] == NotWritten && t.stage == s.stage[call := OnWire(conn)]
    ensures ConnsOk(t)
  {
    forall d | d in t.conns
      ensures LinesOk(t, d) && HandlerOk(t, d) && ResponsesOk(t, d)
    {
      assert HandlerOk(s, d);
      HandlerFrame(s, t, d);
      ResponsesFrame(s, t, d);
      if d == conn {
        AppendedLine(s, t, d, line);
      } else {
        LinesFrame(s, t, d);
      }
    }
  }

  lemma AppendedLine(s: State, t: State, conn: nat, line: RequestLine)
    requires conn in s.conns && LinesOk(s, conn) && conn in t.conns && Grows(s, t)
    requires t.conns[conn].client == s.conns[conn].client
    requires t.conns[conn].requests == s.conns[conn].requests + [line] && LineOk(t, conn, line)
    requires var call := CallId(s.conns[conn].client, line.seqNo);
             call in s.stage && s.stage[call] == NotWritten && t.stage == s.stage[call := OnWire(conn)]
    ensures LinesOk(t, conn)
  {
    var lines := t.conns[conn].requests;
    forall i | 0 <= i < |lines| - 1
      ensures LineOk(t, conn, lines[i]) && lines[i].seqNo != line.seqNo
    {
      assert LineOk(s, conn, s.conns[conn].requests[i]);
    }
  }

  lemma WriteCallsOk(s: State, call: CallId)
    requires CallsOk(s) && ClientEnabled(s, Write(call))
    ensures CallsOk(ClientNext(s, Write(call)))
  {
    var t := ClientNext(s, Write(call));
    WriteGrows(s, call);
    WrittenCallOk(s, call);
    forall d | d in t.calls && d != call
      ensures CallOk(t, d)
    {
      CallFrame(s, t, d);
    }
  }

  lemma WrittenCallOk(s: State, call: CallId)
    requires CallsOk(s) && ClientEnabled(s, Write(call))
    ensures CallOk(ClientNext(s, Write(call)), call)
  {
    assert CallOk(s, call);
  }

  lemma WriteRestOk(s: State, call: CallId)
    requires CallsOk(s) && SlotsOk(s) && CurrentOk(s) && FailingOk(s) && ClientEnabled(s, Write(call))
    ensures var t := ClientNext(s, Write(call)); SlotsOk(t) && CurrentOk(t) && FailingOk(t)
  {
    var t := ClientNext(s, Write(call));
    WriteGrows(s, call);
    assert t.clientPending == s.clientPending && t.current == s.current && t.failing == s.failing;
    forall d | d in t.clientPending && t.clientPending[d].Some?
      ensures Justified(t, d, t.clientPending[d].value)
    {
      JustifiedStays(s, t, d, s.clientPending[d].value);
    }
  }

  lemma RouteConnsOk(s: State, conn: nat)
    requires ConnsOk(s) && ClientEnabled(s, Route(conn))
    ensures ConnsOk(ClientNext(s, Route(conn)))
  {
    var t := ClientNext(s, Route(conn));
    assert t == s.(conns := t.conns, clientPending := t.clientPending);
    PopKeepsConns(s, t, conn);
  }

  lemma PopKeepsConns(s: State, t: State, conn: nat)
    requires ConnsOk(s) && conn in s.conns && s.conns[conn].responses != []
    requires t == s.(conns := t.conns, clientPending := t.clientPending)
    requires t.conns == s.conns[conn := s.conns[conn].(responses := s.conns[conn].responses[1..])]
    ensures ConnsOk(t)
  {
    forall d | d in t.conns
      ensures LinesOk(t, d) && HandlerOk(t, d) && ResponsesOk(t, d)
    {
      assert HandlerOk(s, d);
      LinesFrame(s, t, d);
      HandlerFrame(s, t, d);
      FewerResponses(s, t, d, if d == conn then 1 else 0, |s.conns[d].responses|);
    }
  }

  lemma FewerResponses(s: State, t: State, conn: nat, lo: nat, hi: nat)
    requires conn in s.conns && conn in t.conns && ResponsesOk(s, conn) && Grows(s, t)
    requires t.conns[conn].client == s.conns[conn].client
    requires lo <= hi <= |s.conns[conn].responses| && t.conns[conn].responses == s.conns[conn].responses[lo..hi]
    ensures ResponsesOk(t, conn)
  {
    var c, d := s.conns[conn], t.conns[conn];
    forall i | 0 <= i < |d.responses|
      ensures Justified(t, CallId(d.client, d.responses[i].seqNo), d.responses[i].reply)
    {
      assert d.responses[i] == c.responses[lo + i];
      JustifiedStays(s, t, CallId(c.client, c.responses[lo + i].seqNo), c.responses[lo + i].reply);
    }
  }

  lemma RouteCallsOk(s: State, conn: nat)
    requires CallsOk(s) && SlotsOk(s) && FailingOk(s) && ConnsOk(s) && ClientEnabled(s, Route(conn))
    ensures var t := ClientNext(s, Route(conn)); CallsOk(t) && SlotsOk(t) && FailingOk(t)
  {
    var t := ClientNext(s, Route(conn));
    assert SameHistory(s, t) && SameOwners(s, t) && t.clientPending.Keys == s.clientPending.Keys;
    SameCallsOk(s, t);
    RouteSlotsOk(s, conn);
    RouteFailingOk(s, conn);
  }

  lemma RouteSlotsOk(s: State, conn: nat)
    requires SlotsOk(s) && ConnsOk(s) && ClientEnabled(s, Route(conn))
    ensures SlotsOk(ClientNext(s, Route(conn)))
  {
    var t := ClientNext(s, Route(conn));
    assert ResponsesOk(s, conn);
    forall d | d in t.clientPending && t.clientPending[d].Some?
      ensures Justified(t, d, t.clientPending[d].value)
    {
      assert Justified(s, d, t.clientPending[d].value);
      JustifiedStays(s, t, d, t.clientPending[d].value);
    }
  }

  lemma RouteFailingOk(s: State, conn: nat)
    requires FailingOk(s) && ClientEnabled(s, Route(conn))
    ensures FailingOk(ClientNext(s, Route(conn)))
  {
  }

  // ----- handler steps

  /** What a handler step may touch, apart from its own connection's queues and handler. */
  ghost predicate HandlerTouches(s: State, t: State, conn: nat) {
    && conn in s.conns && t.conns.Keys == s.conns.Keys && t.conns[conn].client == s.conns[conn].client
    && (forall d :: d in s.conns && d != conn ==> t.conns[d] == s.conns[d])
    && t.calls == s.calls && t.lastId == s.lastId && t.clientPending == s.clientPending
    && t.current == s.current && t.failing == s.failing && t.answers == s.answers && t.output == s.output
    && t.stage.Keys == s.stage.Keys
    && (forall call :: call in s.stage && t.stage[call] != s.stage[call] ==>
          s.stage[call] == OnWire(conn) || s.stage[call] == AtHandler(conn))
    && (forall id :: id in s.origin ==> id in t.origin && t.origin[id] == s.origin[id])
    && (forall id :: id in s.asked ==> id in t.asked && t.asked[id] == s.asked[id])
    && (forall id :: id in s.pending && id !in t.pending ==> HeldId(s.conns[conn].handler) == Some(id))
    && s.faults <= t.faults
  }

  predicate OnlyMovesHandler(a: HandlerStep) {
    a.ReplyLocally? || a.ForwardFails? || a.TimeOut? || a.SendReply? || a.Stop?
  }

  lemma MoveTouches(s: State, conn: nat, a: HandlerStep)
    requires HandlerEnabled(s, conn, a) && OnlyMovesHandler(a)
    ensures HandlerTouches(s, HandlerNext(s, conn, a), conn)
  {
    var t := HandlerNext(s, conn, a);
    assert t == s.(conns := s.conns[conn := t.conns[conn]], faults := t.faults);
  }

  lemma PendingTouches(s: State, conn: nat, a: HandlerStep)
    requires HandlerEnabled(s, conn, a) && (a.TakeReply? || a.Delete?)
    ensures HandlerTouches(s, HandlerNext(s, conn, a), conn)
  {
    var t := HandlerNext(s, conn, a);
    assert t == s.(conns := s.conns[conn := t.conns[conn]], pending := t.pending);
  }

  lemma HandlerStepTouches(s: State, conn: nat, a: HandlerStep)
    requires ConnsOk(s) && ManagerOk(s) && ServerOk(s) && HandlerEnabled(s, conn, a)
    ensures HandlerTouches(s, HandlerNext(s, conn, a), conn)
  {
    assert HandlerOk(s, conn);
    match a {
      case ReadLine => ReadLineTouches(s, conn);
      case Allocate => AllocateTouches(s, conn);
      case Forward => ForwardTouches(s, conn);
      case TakeReply => PendingTouches(s, conn, a);
      case Delete => PendingTouches(s, conn, a);
      case _ => MoveTouches(s, conn, a);
    }
  }

  lemma ReadLineTouches(s: State, conn: nat)
    requires ConnsOk(s) && HandlerEnabled(s, conn, ReadLine)
    ensures HandlerTouches(s, HandlerNext(s, conn, ReadLine), conn)
  {
    assert LinesOk(s, conn);
    assert LineOk(s, conn, s.conns[conn].requests[0]);
  }

  lemma AllocateTouches(s: State, conn: nat)
    requires ConnsOk(s) && ManagerOk(s) && HandlerEnabled(s, conn, Allocate)
    ensures HandlerTouches(s, HandlerNext(s, conn, Allocate), conn)
  {
    assert HandlerOk(s, conn);
    assert s.requestID + 1 !in s.origin;
  }

  lemma ForwardTouches(s: State, conn: nat)
    requires ConnsOk(s) && ServerOk(s) && HandlerEnabled(s, conn, Forward)
    ensures HandlerTouches(s, HandlerNext(s, conn, Forward), conn)
  {
    assert HandlerOk(s, conn);
  }

  lemma HandlerGrows(s: State, t: State, conn: nat)
    requires HandlerTouches(s, t, conn)
    ensures Grows(s, t)
  {
  }

  lemma HandlerKeepsClients(s: State, t: State, conn: nat)
    requires HandlerTouches(s, t, conn) && CallsOk(s) && SlotsOk(s) && CurrentOk(s) && FailingOk(s)
    ensures CallsOk(t) && SlotsOk(t) && CurrentOk(t) && FailingOk(t)
  {
    HandlerGrows(s, t, conn);
    HandlerKeepsCalls(s, t, conn);
    SlotsStay(s, t);
  }

  lemma HandlerKeepsCalls(s: State, t: State, conn: nat)
    requires HandlerTouches(s, t, conn) && CallsOk(s) && Grows(s, t)
    ensures CallsOk(t)
  {
    forall call | call in t.calls
      ensures CallOk(t, call)
    {
      CallFrame(s, t, call);
    }
  }

  /** A pending id is held by one handler only. */
  lemma HolderUnique(s: State, conn: nat, other: nat)
    requires ConnsOk(s) && conn in s.conns && other in s.conns
    requires HeldId(s.conns[conn].handler).Some? && HeldId(s.conns[conn].handler) == HeldId(s.conns[other].handler)
    ensures conn == other
  {
    assert HandlerOk(s, conn) && HandlerOk(s, other);
  }

  lemma HandlerKeepsOther(s: State, t: State, conn: nat, other: nat)
    requires HandlerTouches(s, t, conn) && ConnsOk(s) && other in s.conns && other != conn
    ensures LinesOk(t, other) && HandlerOk(t, other) && ResponsesOk(t, other)
  {
    HandlerGrows(s, t, conn);
    assert ConnUnaffected(s, t, other) by {
      assert HandlerOk(s, other);
      if HeldId(s.conns[other].handler).Some? && HeldId(s.conns[other].handler).value !in t.pending {
        HolderUnique(s, conn, other);
      }
    }
    ConnFrame(s, t, other);
  }

  lemma HandlerKeepsConns(s: State, t: State, conn: nat)
    requires HandlerTouches(s, t, conn) && ConnsOk(s)
    requires LinesOk(t, conn) && HandlerOk(t, conn) && ResponsesOk(t, conn)
    ensures ConnsOk(t)
  {
    forall d | d in t.conns
      ensures LinesOk(t, d) && HandlerOk(t, d) && ResponsesOk(t, d)
    {
      if d != conn {
        HandlerKeepsOther(s, t, conn, d);
      }
    }
  }

  lemma HandlerStepLines(s: State, conn: nat, a: HandlerStep)
    requires ConnsOk(s) && HandlerEnabled(s, conn, a) && HandlerTouches(s, HandlerNext(s, conn, a), conn)
    ensures LinesOk(HandlerNext(s, conn, a), conn)
  {
    var t := HandlerNext(s, conn, a);
    var before, after := s.conns[conn].requests, t.conns[conn].requests;
    assert LinesOk(s, conn) && HandlerOk(s, conn);
    forall i | 0 <= i < |after|
      ensures LineOk(t, conn, after[i])
    {
      if a.ReadLine? {
        assert after[i] == before[i + 1] && before[i + 1].seqNo != before[0].seqNo;
        assert LineOk(s, conn, before[i + 1]);
      } else {
        assert LineOk(s, conn, before[i]);
      }
    }
  }

  lemma HandlerStepResponses(s: State, conn: nat, a: HandlerStep)
    requires ConnsOk(s) && HandlerEnabled(s, conn, a) && HandlerTouches(s, HandlerNext(s, conn, a), conn)
    ensures ResponsesOk(HandlerNext(s, conn, a), conn)
  {
    var t := HandlerNext(s, conn, a);
    var c, d := s.conns[conn], t.conns[conn];
    HandlerGrows(s, t, conn);
    assert ResponsesOk(s, conn) && HandlerOk(s, conn);
    assert |d.responses| >= |c.responses| && d.responses[..|c.responses|] == c.responses;
    forall i | 0 <= i < |d.responses|
      ensures Justified(t, CallId(d.client, d.responses[i].seqNo), d.responses[i].reply)
    {
      if i < |c.responses| {
        assert d.responses[i] == c.responses[i];
      }
      JustifiedStays(s, t, CallId(c.client, d.responses[i].seqNo), d.responses[i].reply);
    }
  }

  lemma HandlerStepHandler(s: State, conn: nat, a: HandlerStep)
    requires ConnsOk(s) && ManagerOk(s) && ServerOk(s) && HandlerEnabled(s, conn, a)
    requires HandlerTouches(s, HandlerNext(s, conn, a), conn)
    ensures HandlerOk(HandlerNext(s, conn, a), conn)
  {
    assert HandlerOk(s, conn);
    match a {
      case ReadLine => ReadLineHandler(s, conn);
      case TakeReply => TakeReplyHandler(s, conn);
      case Delete => DeleteHandler(s, conn);
      case _ =>
    }
  }

  lemma ReadLineHandler(s: State, conn: nat)
    requires ConnsOk(s) && HandlerEnabled(s, conn, ReadLine)
    ensures HandlerOk(HandlerNext(s, conn, ReadLine), conn)
  {
    assert LinesOk(s, conn);
    assert LineOk(s, conn, s.conns[conn].requests[0]);
  }

  lemma DeleteHandler(s: State, conn: nat)
    requires ConnsOk(s) && HandlerEnabled(s, conn, Delete)
    ensures HandlerOk(HandlerNext(s, conn, Delete), conn)
  {
    var t, h := HandlerNext(s, conn, Delete), s.conns[conn].handler;
    assert HandlerOk(s, conn);
    PendingTouches(s, conn, Delete);
    HandlerGrows(s, t, conn);
    JustifiedStays(s, t, CallId(s.conns[conn].client, h.seqNo), h.reply);
  }

  lemma TakeReplyHandler(s: State, conn: nat)
    requires ConnsOk(s) && ManagerOk(s) && ServerOk(s) && HandlerEnabled(s, conn, TakeReply)
    ensures HandlerOk(HandlerNext(s, conn, TakeReply), conn)
  {
    assert HandlerOk(s, conn);
  }

  lemma MoveManagerOk(s: State, conn: nat, a: HandlerStep)
    requires ManagerOk(s) && ServerOk(s) && HandlerEnabled(s, conn, a) && (OnlyMovesHandler(a) || a.ReadLine?)
    requires HandlerTouches(s, HandlerNext(s, conn, a), conn)
    ensures ManagerOk(HandlerNext(s, conn, a)) && ServerOk(HandlerNext(s, conn, a))
  {
    var t := HandlerNext(s, conn, a);
    HandlerGrows(s, t, conn);
    assert HeldId(t.conns[conn].handler) == HeldId(s.conns[conn].handler);
    SameManagerOk(s, t);
  }

  lemma TakeReplyManagerOk(s: State, conn: nat)
    requires ManagerOk(s) && ServerOk(s) && HandlerEnabled(s, conn, TakeReply)
    ensures ManagerOk(HandlerNext(s, conn, TakeReply))
  {
    var t := HandlerNext(s, conn, TakeReply);
    forall k | k in t.pending
      ensures Held(t, k)
    {
      HeldStays(s, t, k);
    }
  }

  lemma TakeReplyServerOk(s: State, conn: nat)
    requires ManagerOk(s) && ServerOk(s) && HandlerEnabled(s, conn, TakeReply)
    ensures ServerOk(HandlerNext(s, conn, TakeReply))
  {
    var t := HandlerNext(s, conn, TakeReply);
    OutputStays(s, t);
  }

  lemma AllocateHeld(s: State, conn: nat, id: int)
    requires HandlerEnabled(s, conn, Allocate) && (id == s.requestID + 1 || Held(s, id))
    ensures Held(HandlerNext(s, conn, Allocate), id)
  {
    var t := HandlerNext(s, conn, Allocate);
    if id == s.requestID + 1 {
      assert HeldId(t.conns[conn].handler) == Some(id);
    } else {
      HeldStays(s, t, id);
    }
  }

  lemma AllocateManagerOk(s: State, conn: nat)
    requires ConnsOk(s) && ManagerOk(s) && ServerOk(s) && HandlerEnabled(s, conn, Allocate)
    ensures ManagerOk(HandlerNext(s, conn, Allocate))
  {
    var t := HandlerNext(s, conn, Allocate);
    assert HandlerOk(s, conn);
    assert t.requestID !in s.origin && t.requestID !in s.answers;
    forall id | id in t.pending
      ensures Held(t, id)
    {
      AllocateHeld(s, conn, id);
    }
  }

  lemma AllocateServerOk(s: State, conn: nat)
    requires ConnsOk(s) && ManagerOk(s) && ServerOk(s) && HandlerEnabled(s, conn, Allocate)
    ensures ServerOk(HandlerNext(s, conn, Allocate))
  {
    var t := HandlerNext(s, conn, Allocate);
    assert HandlerOk(s, conn);
    assert s.requestID + 1 !in s.origin && s.requestID + 1 !in s.answers;
    OutputStays(s, t);
  }

  lemma ForwardManagerOk(s: State, conn: nat)
    requires ConnsOk(s) && ManagerOk(s) && ServerOk(s) && HandlerEnabled(s, conn, Forward)
    ensures ManagerOk(HandlerNext(s, conn, Forward))
  {
    var t := HandlerNext(s, conn, Forward);
    assert HandlerOk(s, conn);
    forall k | k in t.pending
      ensures Held(t, k)
    {
      HeldStays(s, t, k);
    }
  }

  lemma ForwardServerOk(s: State, conn: nat)
    requires ConnsOk(s) && ManagerOk(s) && ServerOk(s) && HandlerEnabled(s, conn, Forward)
    ensures ServerOk(HandlerNext(s, conn, Forward))
  {
    var t := HandlerNext(s, conn, Forward);
    assert HandlerOk(s, conn);
    OutputStays(s, t);
  }

  lemma DeleteManagerOk(s: State, conn: nat)
    requires ConnsOk(s) && ManagerOk(s) && ServerOk(s) && HandlerEnabled(s, conn, Delete)
    ensures ManagerOk(HandlerNext(s, conn, Delete))
  {
    var t := HandlerNext(s, conn, Delete);
    assert HandlerOk(s, conn);
    forall k | k in t.pending
      ensures Held(t, k)
    {
      var d :| d in s.conns && HeldId(s.conns[d].handler) == Some(k);
      assert d in t.conns && HeldId(t.conns[d].handler) == Some(k);
    }
  }

  lemma DeleteServerOk(s: State, conn: nat)
    requires ConnsOk(s) && ManagerOk(s) && ServerOk(s) && HandlerEnabled(s, conn, Delete)
    ensures ServerOk(HandlerNext(s, conn, Delete))
  {
    var t := HandlerNext(s, conn, Delete);
    assert HandlerOk(s, conn);
    OutputStays(s, t);
  }

  lemma HandlerStepConns(s: State, conn: nat, a: HandlerStep)
    requires ConnsOk(s) && ManagerOk(s) && ServerOk(s) && HandlerEnabled(s, conn, a)
    requires HandlerTouches(s, HandlerNext(s, conn, a), conn)
    ensures ConnsOk(HandlerNext(s, conn, a))
  {
    HandlerStepLines(s, conn, a);
    HandlerStepResponses(s, conn, a);
    HandlerStepHandler(s, conn, a);
    HandlerKeepsConns(s, HandlerNext(s, conn, a), conn);
  }

  lemma HandlerStepManager(s: State, conn: nat, a: HandlerStep)
    requires ConnsOk(s) && ManagerOk(s) && ServerOk(s) && HandlerEnabled(s, conn, a)
    requires HandlerTouches(s, HandlerNext(s, conn, a), conn)
    ensures ManagerOk(HandlerNext(s, conn, a)) && ServerOk(HandlerNext(s, conn, a))
  {
    match a {
      case TakeReply => TakeReplyManagerOk(s, conn); TakeReplyServerOk(s, conn);
      case Allocate => AllocateManagerOk(s, conn); AllocateServerOk(s, conn);
      case Forward => ForwardManagerOk(s, conn); ForwardServerOk(s, conn);
      case Delete => DeleteManagerOk(s, conn); DeleteServerOk(s, conn);
      case _ => MoveManagerOk(s, conn, a);
    }
  }

  lemma HandlerStepKeeps(s: State, conn: nat, a: HandlerStep)
    requires Inv(s) && HandlerEnabled(s, conn, a)
    ensures Inv(HandlerNext(s, conn, a))
  {
    HandlerStepTouches(s, conn, a);
    HandlerKeepsClients(s, HandlerNext(s, conn, a), conn);
    HandlerStepConns(s, conn, a);
    HandlerStepManager(s, conn, a);
  }

  lemma CallStepKeeps(s: State, a: ClientStep)
    requires Inv(s) && ClientEnabled(s, a) && IsOnlyCalls(a)
    ensures Inv(ClientNext(s, a))
  {
    ClientStepOnlyCalls(s, a);
    ClientStepCallsOk(s, a);
    ClientStepSlotsOk(s, a);
    ClientStepFailing(s, a);
    ClientStepCurrent(s, a);
    OnlyCallsKeeps(s, ClientNext(s, a));
  }

  lemma WriteKeeps(s: State, call: CallId)
    requires Inv(s) && ClientEnabled(s, Write(call))
    ensures Inv(ClientNext(s, Write(call)))
  {
    WriteGrows(s, call);
    WriteConnsOk(s, call);
    WriteCallsOk(s, call);
    WriteRestOk(s, call);
    WriteManagerOk(s, call);
  }

  lemma RouteKeeps(s: State, conn: nat)
    requires Inv(s) && ClientEnabled(s, Route(conn))
    ensures Inv(ClientNext(s, Route(conn)))
  {
    RouteConnsOk(s, conn);
    RouteCallsOk(s, conn);
    RouteRestOk(s, conn);
  }

  lemma ClientStepKeeps(s: State, a: ClientStep)
    requires Inv(s) && ClientEnabled(s, a)
    ensures Inv(ClientNext(s, a))
  {
    match a {
      case Write(call) => WriteKeeps(s, call);
      case Route(conn) => RouteKeeps(s, conn);
      case _ => CallStepKeeps(s, a);
    }
  }


  lemma OnlyCallsKeeps(s: State, t: State)
    requires ConnsOk(s) && ManagerOk(s) && ServerOk(s) && OnlyCalls(s, t)
    ensures ConnsOk(t) && ManagerOk(t) && ServerOk(t)
  {
    assert Grows(s, t);
    forall conn | conn in s.conns
      ensures ConnUnaffected(s, t, conn)
    {
      assert HandlerOk(s, conn);
    }
    OnlyCallsKeepsConns(s, t);
    SameManagerOk(s, t);
  }

  lemma WriteManagerOk(s: State, call: CallId)
    requires CallsOk(s) && ManagerOk(s) && ServerOk(s) && ClientEnabled(s, Write(call))
    ensures ManagerOk(ClientNext(s, Write(call))) && ServerOk(ClientNext(s, Write(call)))
  {
    WriteGrows(s, call);
    SameManagerOk(s, ClientNext(s, Write(call)));
  }

  lemma RouteRestOk(s: State, conn: nat)
    requires CurrentOk(s) && ManagerOk(s) && ServerOk(s) && ClientEnabled(s, Route(conn))
    ensures var t := ClientNext(s, Route(conn)); CurrentOk(t) && ManagerOk(t) && ServerOk(t)
  {
    var t := ClientNext(s, Route(conn));
    assert SameHistory(s, t) && t.pending == s.pending;
    SameManagerOk(s, t);
  }

  // ----- server steps: the manager's reader and the language server

  /** Neither touches clients, connections or stages. */
  ghost predicate OnlyServer(s: State, t: State) {
    && t.conns == s.conns && t.calls == s.calls && t.stage == s.stage && t.lastId == s.lastId
    && t.clientPending == s.clientPending && t.current == s.current && t.failing == s.failing
    && t.origin == s.origin && t.asked == s.asked && t.requestID == s.requestID && t.faults == s.faults
    && t.pending.Keys == s.pending.Keys
    && (forall id :: id in s.answers ==> id in t.answers && t.answers[id] == s.answers[id])
  }

  lemma OnlyServerCalls(s: State, t: State)
    requires OnlyServer(s, t) && CallsOk(s) && Grows(s, t)
    ensures CallsOk(t)
  {
    forall call | call in t.calls
      ensures CallOk(t, call)
    {
      CallFrame(s, t, call);
    }
  }

  lemma OnlyServerConns(s: State, t: State)
    requires OnlyServer(s, t) && ConnsOk(s) && Grows(s, t)
    ensures ConnsOk(t)
  {
    forall conn | conn in t.conns
      ensures LinesOk(t, conn) && HandlerOk(t, conn) && ResponsesOk(t, conn)
    {
      assert HandlerOk(s, conn);
      ConnFrame(s, t, conn);
    }
  }

  lemma OnlyServerSlots(s: State, t: State)
    requires OnlyServer(s, t) && SlotsOk(s) && CurrentOk(s) && FailingOk(s) && Grows(s, t)
    ensures SlotsOk(t) && CurrentOk(t) && FailingOk(t)
  {
    SlotsStay(s, t);
  }

  lemma OnlyServerGrows(s: State, t: State)
    requires OnlyServer(s, t)
    ensures Grows(s, t)
  {
  }

  lemma OnlyServerHeld(s: State, t: State)
    requires OnlyServer(s, t) && ManagerOk(s)
    ensures forall id :: id in t.pending ==> Held(t, id)
  {
    forall id | id in t.pending
      ensures Held(t, id)
    {
      HeldStays(s, t, id);
    }
  }

  lemma DeliverEffect(pending: map<int, Option<Reply>>, m: ServerMessage)
    ensures Deliver(pending, m).Keys == pending.Keys
    ensures forall id :: id in pending && RoutedId(m) != Some(id) ==> Deliver(pending, m)[id] == pending[id]
  {
  }

  lemma ServerStepOnly(s: State, a: ServerStep)
    requires ServerEnabled(s, a)
    ensures OnlyServer(s, ServerNext(s, a))
  {
    if a.ManagerRoute? {
      DeliverEffect(s.pending, s.output[0]);
    }
  }

  lemma ServerStepManager(s: State, a: ServerStep)
    requires ManagerOk(s) && ServerOk(s) && ServerEnabled(s, a) && OnlyServer(s, ServerNext(s, a))
    ensures ManagerOk(ServerNext(s, a))
  {
    OnlyServerHeld(s, ServerNext(s, a));
    if a.ManagerRoute? {
      assert OutputOk(s, s.output[0]);
    }
  }

  lemma RestOfOutputOk(s: State, t: State, m: ServerMessage)
    requires OutputOk(s, m) && t.answers == s.answers
    requires forall id :: id in t.pending && RoutedId(m) == Some(id) ==>
               id in s.pending && t.pending[id] == s.pending[id]
    ensures OutputOk(t, m)
  {
  }

  lemma ManagerRouteServerOk(s: State)
    requires ServerOk(s) && ServerEnabled(s, ManagerRoute)
    ensures ServerOk(ServerNext(s, ManagerRoute))
  {
    var t := ServerNext(s, ManagerRoute);
    DeliverEffect(s.pending, s.output[0]);
    forall i | 0 <= i < |t.output|
      ensures OutputOk(t, t.output[i])
    {
      assert t.output[i] == s.output[i + 1];
      if IsAnswer(s.output[i + 1]) {
        assert RoutedId(s.output[0]) != RoutedId(s.output[i + 1]) by {
          if IsAnswer(s.output[0]) {
            assert DistinctAnswers(s.output);
          }
        }
        RestOfOutputOk(s, t, s.output[i + 1]);
      }
    }
    assert DistinctAnswers(t.output) by {
      assert forall i :: 0 <= i < |t.output| ==> t.output[i] == s.output[i + 1];
    }
  }

  lemma AnswerServerOk(s: State, id: int, echo: Id, reply: Reply)
    requires ManagerOk(s) && ServerOk(s) && ServerEnabled(s, Answer(id, echo, reply))
    ensures ServerOk(ServerNext(s, Answer(id, echo, reply)))
  {
    var t := ServerNext(s, Answer(id, echo, reply));
    OutputStays(s, t);
    forall i | 0 <= i < |s.output|
      ensures RoutedId(s.output[i]) != Some(id)
    {
      assert OutputOk(s, s.output[i]);
    }
  }

  lemma SayServerOk(s: State, m: ServerMessage)
    requires ServerOk(s) && ServerEnabled(s, Say(m))
    ensures ServerOk(ServerNext(s, Say(m)))
  {
    var t := ServerNext(s, Say(m));
    OutputStays(s, t);
  }

  lemma ServerStepKeeps(s: State, a: ServerStep)
    requires Inv(s) && ServerEnabled(s, a)
    ensures Inv(ServerNext(s, a))
  {
    ServerStepOnly(s, a);
    ServerStepManager(s, a);
    match a {
      case ManagerRoute => ManagerRouteServerOk(s);
      case Answer(id, echo, reply) => AnswerServerOk(s, id, echo, reply);
      case Say(m) => SayServerOk(s, m);
    }
    OnlyServerGrows(s, ServerNext(s, a));
    OnlyServerCalls(s, ServerNext(s, a));
    OnlyServerConns(s, ServerNext(s, a));
    OnlyServerSlots(s, ServerNext(s, a));
  }

  // ----- network steps

  ghost predicate OnlyNetwork(s: State, t: State) {
    && t == s.(conns := t.conns, current := t.current) && SameOwners(s, t)
    && (forall conn :: conn in s.conns ==> t.conns[conn].handler == s.conns[conn].handler)
  }

  lemma NetworkKeepsRest(s: State, t: State)
    requires OnlyNetwork(s, t) && CallsOk(s) && SlotsOk(s) && FailingOk(s) && ManagerOk(s) && ServerOk(s)
    ensures Grows(s, t) && CallsOk(t) && SlotsOk(t) && FailingOk(t) && ManagerOk(t) && ServerOk(t)
  {
    SameCallsOk(s, t);
    SlotsStay(s, t);
    SameManagerOk(s, t);
  }

  lemma NetworkStepConns(s: State, a: NetworkStep)
    requires ConnsOk(s) && NetworkEnabled(s, a) && Grows(s, NetworkNext(s, a))
    ensures ConnsOk(NetworkNext(s, a))
  {
    var t := NetworkNext(s, a);
    forall conn | conn in t.conns
      ensures LinesOk(t, conn) && HandlerOk(t, conn) && ResponsesOk(t, conn)
    {
      if conn in s.conns {
        assert HandlerOk(s, conn);
        HandlerFrame(s, t, conn);
        assert ResponsesOk(s, conn);
        FewerResponses(s, t, conn, 0, |t.conns[conn].responses|);
        assert LinesOk(s, conn);
        FewerLines(s, t, conn);
      }
    }
  }

  lemma FewerLines(s: State, t: State, conn: nat)
    requires conn in s.conns && conn in t.conns && LinesOk(s, conn) && Grows(s, t) && t.stage == s.stage
    requires t.conns[conn].client == s.conns[conn].client
    requires t.conns[conn].requests <= s.conns[conn].requests
    ensures LinesOk(t, conn)
  {
    forall i | 0 <= i < |t.conns[conn].requests|
      ensures LineOk(t, conn, t.conns[conn].requests[i])
    {
      assert LineOk(s, conn, s.conns[conn].requests[i]);
    }
  }

  lemma NetworkStepOnly(s: State, a: NetworkStep)
    requires NetworkEnabled(s, a)
    ensures OnlyNetwork(s, NetworkNext(s, a))
  {
  }

  lemma NetworkStepCurrent(s: State, a: NetworkStep)
    requires NetworkEnabled(s, a) && CurrentOk(s)
    ensures CurrentOk(NetworkNext(s, a))
  {
  }

  lemma NetworkStepKeeps(s: State, a: NetworkStep)
    requires Inv(s) && NetworkEnabled(s, a)
    ensures Inv(NetworkNext(s, a))
  {
    NetworkStepOnly(s, a);
    NetworkKeepsRest(s, NetworkNext(s, a));
    NetworkStepConns(s, a);
    NetworkStepCurrent(s, a);
  }

  // ----- runs

  ghost predicate Initial(s: State) {
    && (forall client :: client in s.lastId ==> s.lastId[client] == 0)
    && s.requestID >= 0 && s.current == map[] && s.clientPending == map[] && s.failing == map[] && s.calls == map[]
    && s.conns == map[] && s.pending == map[] && s.asked == map[] && s.answers == map[] && s.output == []
    && s.origin == map[] && s.stage == map[] && s.faults == {}
  }

  ghost predicate IsRun(run: seq<State>, actions: seq<Action>) {
    && |run| == |actions| + 1 && Initial(run[0])
    && forall i :: 0 <= i < |actions| ==> Enabled(run[i], actions[i]) && run[i + 1] == Next(run[i], actions[i])
  }

  lemma StepKeeps(s: State, a: Action)
    requires Inv(s) && Enabled(s, a)
    ensures Inv(Next(s, a))
  {
    match a {
      case ByNetwork(n) => NetworkStepKeeps(s, n);
      case ByClient(c) => ClientStepKeeps(s, c);
      case ByHandler(conn, h) => HandlerStepKeeps(s, conn, h);
      case ByServer(v) => ServerStepKeeps(s, v);
    }
  }

  lemma {:induction false} RunKeeps(run: seq<State>, actions: seq<Action>, n: nat)
    requires IsRun(run, actions) && n < |run|
    ensures Inv(run[n])
  {
    if n > 0 {
      RunKeeps(run, actions, n - 1);
      StepKeeps(run[n - 1], actions[n - 1]);
    }
  }

  // ----- what every run guarantees

  /** The server was asked exactly this call's request, under an id of its own, and gave exactly this answer. */
  ghost predicate AnsweredBy(s: State, call: CallId, reply: Reply) {
    exists id :: id in s.origin && s.origin[id] == call
              && id in s.asked && call in s.calls && s.asked[id] == s.calls[call].request
              && id in s.answers && s.answers[id] == reply
  }

  /** A forwarded call that returns a result returns the server's answer to its own request. */
  lemma CallReturnsItsAnswer(run: seq<State>, actions: seq<Action>, n: nat, call: CallId, value: string)
    requires IsRun(run, actions) && n < |run| && call in run[n].calls
    requires run[n].calls[call].phase == Returned(Value(value))
    requires IsForwarded(run[n].calls[call].request.name)
    ensures AnsweredBy(run[n], call, Result(value))
  {
    RunKeeps(run, actions, n);
    assert CallOk(run[n], call);
    assert run[n].stage[call].id in run[n].origin;
  }

  /** The handler of this connection works for the call. */
  ghost predicate Serves(s: State, conn: nat, call: CallId) {
    conn in s.conns && s.conns[conn].client == call.client &&
    var h := s.conns[conn].handler;
    (h.Allocated? || h.Awaiting?) && h.seqNo == call.seqNo
  }

  /** Which steps of a client fail which call, and with which message. */
  ghost predicate ClientFault(s: State, a: ClientStep, call: CallId, message: string) {
    match a
    case TakeConn(c) =>
      c == call && message == "connection lost before sending request"
      && (call.client in s.current ==> s.current[call.client] == None)
    case WriteFails(c) => c == call && message == "failed to send request"
    case GiveUp(c) => c == call && message == "context done"
    case FailOne(c) => c == call && message == "connection lost"
    case _ => false
  }

  ghost predicate HandlerFault(s: State, conn: nat, a: HandlerStep, call: CallId, message: string) {
    match a
    case ForwardFails => Serves(s, conn, call) && message == "write failed"
    case TimeOut => Serves(s, conn, call) && message == "context deadline exceeded"
    case _ => false
  }

  /** A step that fails this call, with the message it fails it with. */
  ghost predicate IsFault(s: State, a: Action, call: CallId, message: string) {
    match a
    case ByClient(c) => ClientFault(s, c, call, message)
    case ByHandler(conn, h) => HandlerFault(s, conn, h, call, message)
    case _ => false
  }

  lemma ClientFaults(s: State, a: ClientStep, t: State, f: (CallId, string))
    requires ClientEnabled(s, a) && t == ClientNext(s, a)
    ensures f in t.faults <==> f in s.faults || ClientFault(s, a, f.0, f.1)
  {
  }

  lemma HandlerFaults(s: State, conn: nat, a: HandlerStep, t: State, f: (CallId, string))
    requires HandlerEnabled(s, conn, a) && t == HandlerNext(s, conn, a)
    ensures f in t.faults <==> f in s.faults || HandlerFault(s, conn, a, f.0, f.1)
  {
  }

  lemma NetworkFaults(s: State, a: NetworkStep)
    requires NetworkEnabled(s, a)
    ensures NetworkNext(s, a).faults == s.faults
  {
    NetworkStepOnly(s, a);
  }

  lemma ServerFaults(s: State, a: ServerStep)
    requires ServerEnabled(s, a)
    ensures ServerNext(s, a).faults == s.faults
  {
    ServerStepOnly(s, a);
  }

  lemma StepFaults(s: State, a: Action, t: State, f: (CallId, string))
    requires Enabled(s, a) && t == Next(s, a)
    ensures f in t.faults <==> f in s.faults || IsFault(s, a, f.0, f.1)
  {
    match a {
      case ByNetwork(n) => NetworkFaults(s, n);
      case ByClient(c) => ClientFaults(s, c, t, f);
      case ByHandler(conn, h) => HandlerFaults(s, conn, h, t, f);
      case ByServer(v) => ServerFaults(s, v);
    }
  }

  ghost predicate FaultAt(run: seq<State>, actions: seq<Action>, i: int, call: CallId, message: string) {
    0 <= i < |run| && i < |actions| && IsFault(run[i], actions[i], call, message)
  }

  /** The history of faults is exactly that of the steps that fail calls. */
  lemma {:induction false} FaultsAreSteps(run: seq<State>, actions: seq<Action>, n: nat, call: CallId, message: string)
    requires IsRun(run, actions) && n < |run|
    ensures (call, message) in run[n].faults <==> exists i :: i < n && FaultAt(run, actions, i, call, message)
  {
    if n > 0 {
      FaultsAreSteps(run, actions, n - 1, call, message);
      StepFaults(run[n - 1], actions[n - 1], run[n], (call, message));
      assert FaultAt(run, actions, n - 1, call, message) <==> IsFault(run[n - 1], actions[n - 1], call, message);
    }
  }

  /** A forwarded call that fails had a fault of its own with this message, or the server answered just this error. */
  lemma CallErrorHasItsCause(run: seq<State>, actions: seq<Action>, n: nat, call: CallId, message: string)
    requires IsRun(run, actions) && n < |run| && call in run[n].calls
    requires run[n].calls[call].phase == Returned(CallError(message))
    requires IsForwarded(run[n].calls[call].request.name)
    ensures AnsweredBy(run[n], call, Failure(message))
         || exists i :: i < n && FaultAt(run, actions, i, call, message)
  {
    RunKeeps(run, actions, n);
    assert CallOk(run[n], call);
    FaultsAreSteps(run, actions, n, call, message);
    if Answered(run[n], call, Failure(message)) {
      assert run[n].stage[call].id in run[n].origin;
    }
  }

  /** One call reaches the server at most once, so two ids never stand for the same call. */
  lemma CallIsForwardedOnce(run: seq<State>, actions: seq<Action>, n: nat, id: int, other: int)
    requires IsRun(run, actions) && n < |run|
    requires id in run[n].origin && other in run[n].origin && run[n].origin[id] == run[n].origin[other]
    ensures id == other
  {
    RunKeeps(run, actions, n);
  }

  /** The manager's reader can always take the next message: no capacity-one channel is ever full in its way. */
  lemma ManagerReaderNeverBlocks(run: seq<State>, actions: seq<Action>, n: nat)
    requires IsRun(run, actions) && n < |run| && run[n].output != []
    ensures Enabled(run[n], ByServer(ManagerRoute))
  {
    RunKeeps(run, actions, n);
    var s := run[n];
    assert OutputOk(s, s.output[0]);
  }

  ghost predicate HeldOnce(s: State) {
    forall a, b | a in s.conns && b in s.conns && HeldId(s.conns[a].handler).Some? ::
      HeldId(s.conns[a].handler) == HeldId(s.conns[b].handler) ==> a == b
  }

  /** Both pending tables hold exactly the requests in flight, each under one handler. */
  lemma PendingIsInFlight(run: seq<State>, actions: seq<Action>, n: nat)
    requires IsRun(run, actions) && n < |run|
    ensures forall id :: id in run[n].pending <==> Held(run[n], id)
    ensures forall call :: call in run[n].clientPending
              <==> call in run[n].calls && !run[n].calls[call].phase.Returned?
    ensures HeldOnce(run[n])
  {
    RunKeeps(run, actions, n);
    var s := run[n];
    forall id | Held(s, id)
      ensures id in s.pending
    {
      var conn :| conn in s.conns && HeldId(s.conns[conn].handler) == Some(id);
      assert HandlerOk(s, conn);
    }
    forall call | call in s.calls
      ensures call in s.clientPending <==> !s.calls[call].phase.Returned?
    {
      assert CallOk(s, call);
    }
    forall a, b | a in s.conns && b in s.conns && HeldId(s.conns[a].handler).Some?
                  && HeldId(s.conns[a].handler) == HeldId(s.conns[b].handler)
      ensures a == b
    {
      HolderUnique(s, a, b);
    }
  }

  ghost predicate IdsAdvance(s: State, t: State) {
    s.requestID <= t.requestID && forall id :: id in t.pending && id !in s.pending ==> s.requestID < id
  }

  lemma ClientIds(s: State, a: ClientStep)
    requires ClientEnabled(s, a)
    ensures ClientNext(s, a).requestID == s.requestID && ClientNext(s, a).pending == s.pending
  {
  }

  lemma HandlerIds(s: State, conn: nat, a: HandlerStep)
    requires HandlerEnabled(s, conn, a)
    ensures IdsAdvance(s, HandlerNext(s, conn, a))
  {
  }

  lemma ServerIds(s: State, a: ServerStep)
    requires ServerEnabled(s, a)
    ensures IdsAdvance(s, ServerNext(s, a))
  {
    ServerStepOnly(s, a);
  }

  lemma StepIds(s: State, a: Action)
    requires Enabled(s, a)
    ensures IdsAdvance(s, Next(s, a))
  {
    match a {
      case ByNetwork(n) => NetworkStepOnly(s, n);
      case ByClient(c) => ClientIds(s, c);
      case ByHandler(conn, h) => HandlerIds(s, conn, h);
      case ByServer(v) => ServerIds(s, v);
    }
  }

  lemma RunIds(run: seq<State>, actions: seq<Action>, i: nat)
    requires IsRun(run, actions) && i < |actions|
    ensures IdsAdvance(run[i], run[i + 1])
  {
    StepIds(run[i], actions[i]);
  }

  lemma {:induction false} GoneStaysGone(run: seq<State>, m: nat, n: nat, id: int)
    requires m <= n < |run| && id <= run[m].requestID && id !in run[m].pending
    requires forall i :: 0 <= i < |run| - 1 ==> IdsAdvance(run[i], run[i + 1])
    ensures id <= run[n].requestID && id !in run[n].pending
  {
    if m < n {
      GoneStaysGone(run, m, n - 1, id);
      assert IdsAdvance(run[n - 1], run[n - 1 + 1]);
    }
  }

  /** An id that has left the pending table never comes back. */
  lemma IdsAreNeverReused(run: seq<State>, actions: seq<Action>, m: nat, n: nat, id: int)
    requires IsRun(run, actions) && m <= n < |run| && id <= run[m].requestID && id !in run[m].pending
    ensures id <= run[n].requestID && id !in run[n].pending
  {
    forall i | 0 <= i < |run| - 1
      ensures IdsAdvance(run[i], run[i + 1])
    {
      RunIds(run, actions, i);
    }
    GoneStaysGone(run, m, n, id);
  }

  /** A reply that arrives after its request was given up is taken off the stream and changes nothing else. */
  lemma LateReplyIsDropped(run: seq<State>, actions: seq<Action>, m: nat, n: nat, id: int)
    requires IsRun(run, actions) && m <= n < |actions| && id <= run[m].requestID && id !in run[m].pending
    requires actions[n] == ByServer(ManagerRoute) && RoutedId(run[n].output[0]) == Some(id)
    ensures run[n + 1] == run[n].(output := run[n].output[1..])
  {
    IdsAreNeverReused(run, actions, m, n, id);
  }

  /** What is no response, such as a request of the server, is taken off the stream and changes nothing. */
  lemma OthersAreIgnored(s: State, m: ServerMessage)
    requires m.Malformed? || !m.id.IsSet() || m.name != ""
    ensures ServerEnabled(s, Say(m))
    ensures s.output != [] && s.output[0] == m ==>
              ServerEnabled(s, ManagerRoute) && ServerNext(s, ManagerRoute) == s.(output := s.output[1..])
  {
  }

  /** When failAllPending is done, every pending call of that client has a reply waiting or has already given up. */
  lemma FailAllReachesEveryCall(run: seq<State>, actions: seq<Action>, n: nat, client: nat, call: CallId)
    requires IsRun(run, actions) && n < |run| && client in run[n].failing && run[n].failing[client] == {}
    requires call in run[n].clientPending && call.client == client
    ensures run[n].clientPending[call].Some? || (call in run[n].calls && run[n].calls[call].phase.Leaving?)
  {
    RunKeeps(run, actions, n);
  }
}

/**
 What can become of a call in the system of SessionProtocol: from every reachable state a request can be brought to
 the language server, and whatever the server answers can be brought back to the caller. The replies queued in front
 of it, which block a reader as long as their channels are full, and the requests queued in front of it, which block
 their connection's handler, can always be cleared away.
 */
module SessionDelivery {
  import opened Wrappers
  import opened JsonRpcId
  import opened SessionProtocol

  // ----- continuations of a run

  ghost predicate Follows(s: State, actions: seq<Action>, t: State)
    decreases |actions|
  {
    if actions == [] then t == s else Enabled(s, actions[0]) && Follows(Next(s, actions[0]), actions[1..], t)
  }

  ghost predicate Leads(s: State, t: State) {
    exists actions :: Follows(s, actions, t)
  }

  lemma {:induction false} FollowsOn(s: State, a: seq<Action>, t: State, b: seq<Action>, u: State)
    requires Follows(s, a, t) && Follows(t, b, u)
    ensures Follows(s, a + b, u)
    decreases |a|
  {
    if a == [] {
      assert a + b == b;
    } else {
      assert (a + b)[1..] == a[1..] + b;
      FollowsOn(Next(s, a[0]), a[1..], t, b, u);
    }
  }

  lemma LeadsOn(s: State, t: State, u: State)
    requires Leads(s, t) && Leads(t, u)
    ensures Leads(s, u)
  {
    var a :| Follows(s, a, t);
    var b :| Follows(t, b, u);
    FollowsOn(s, a, t, b, u);
  }

  lemma LeadsThen(s: State, a: Action, u: State)
    requires Enabled(s, a) && Leads(Next(s, a), u)
    ensures Leads(s, u)
  {
    var b :| Follows(Next(s, a), b, u);
    assert ([a] + b)[1..] == b;
    assert Follows(s, [a] + b, u);
  }

  lemma LeadsNowhere(s: State)
    ensures Leads(s, s)
  {
    assert Follows(s, [], s);
  }

  // ----- no reply is queued twice

  function ServedSeq(h: Handler): Option<nat> {
    if h.Idle? || h.Stopped? then None else Some(h.seqNo)
  }

  /** The call's request has been read by the handler of this connection. */
  ghost predicate Reached(s: State, conn: nat, call: CallId) {
    && call in s.stage
    && (s.stage[call] == AtHandler(conn) || (s.stage[call].Forwarded? && s.stage[call].conn == conn))
  }

  ghost predicate QueueOk(s: State, conn: nat)
    requires conn in s.conns
  {
    var c := s.conns[conn];
    && (c.handler.Replying? ==> Reached(s, conn, CallId(c.client, c.handler.seqNo)))
    && forall r :: r in c.responses ==>
         Reached(s, conn, CallId(c.client, r.seqNo)) && ServedSeq(c.handler) != Some(r.seqNo)
  }

  /** Replies are queued only for requests that were read, and for none that is still being served. */
  ghost predicate QueuesOk(s: State) {
    forall conn :: conn in s.conns ==> QueueOk(s, conn)
  }

  ghost predicate Sound(s: State) {
    Inv(s) && QueuesOk(s)
  }

  /** A connection whose handler and replies are as they were, or fewer. */
  lemma QueueFrame(s: State, t: State, conn: nat)
    requires conn in s.conns && conn in t.conns && QueueOk(s, conn)
    requires t.conns[conn].client == s.conns[conn].client && t.conns[conn].handler == s.conns[conn].handler
    requires forall r :: r in t.conns[conn].responses ==> r in s.conns[conn].responses
    requires forall call :: Reached(s, conn, call) ==> Reached(t, conn, call)
    ensures QueueOk(t, conn)
  {
  }

  lemma NetworkQueues(s: State, a: NetworkStep)
    requires QueuesOk(s) && NetworkEnabled(s, a)
    ensures QueuesOk(NetworkNext(s, a))
  {
    var t := NetworkNext(s, a);
    NetworkStepOnly(s, a);
    forall conn | conn in t.conns
      ensures QueueOk(t, conn)
    {
      if conn in s.conns {
        assert QueueOk(s, conn);
        QueueFrame(s, t, conn);
      }
    }
  }

  ghost predicate StagesStay(s: State, t: State) {
    forall call :: call in s.stage && !s.stage[call].NotWritten? ==> call in t.stage && t.stage[call] == s.stage[call]
  }

  lemma ReachedStays(s: State, t: State, conn: nat)
    requires StagesStay(s, t)
    ensures forall call :: Reached(s, conn, call) ==> Reached(t, conn, call)
  {
  }

  lemma ClientStages(s: State, a: ClientStep)
    requires Inv(s) && ClientEnabled(s, a)
    ensures StagesStay(s, ClientNext(s, a))
  {
    if a.Write? {
      assert CallOk(s, a.call);
    } else if a.Start? {
      FreshCall(s, a.client);
    }
  }

  lemma ClientConns(s: State, a: ClientStep)
    requires ClientEnabled(s, a)
    ensures var t := ClientNext(s, a);
      t.conns.Keys == s.conns.Keys
      && forall conn :: conn in s.conns ==>
           && t.conns[conn].client == s.conns[conn].client && t.conns[conn].handler == s.conns[conn].handler
           && forall r :: r in t.conns[conn].responses ==> r in s.conns[conn].responses
  {
  }

  lemma ClientQueues(s: State, a: ClientStep)
    requires Inv(s) && QueuesOk(s) && ClientEnabled(s, a)
    ensures QueuesOk(ClientNext(s, a))
  {
    var t := ClientNext(s, a);
    ClientStages(s, a);
    ClientConns(s, a);
    forall conn | conn in t.conns
      ensures QueueOk(t, conn)
    {
      assert QueueOk(s, conn);
      ReachedStays(s, t, conn);
      QueueFrame(s, t, conn);
    }
  }

  lemma ServerQueues(s: State, a: ServerStep)
    requires QueuesOk(s) && ServerEnabled(s, a)
    ensures QueuesOk(ServerNext(s, a))
  {
    var t := ServerNext(s, a);
    ServerStepOnly(s, a);
    forall conn | conn in t.conns
      ensures QueueOk(t, conn)
    {
      assert QueueOk(s, conn);
      QueueFrame(s, t, conn);
    }
  }

  lemma HandlerQueue(s: State, conn: nat, a: HandlerStep)
    requires ConnsOk(s) && QueuesOk(s) && HandlerEnabled(s, conn, a)
    ensures QueueOk(HandlerNext(s, conn, a), conn)
  {
    assert QueueOk(s, conn) && HandlerOk(s, conn);
    if a.ReadLine? {
      ReadLineQueue(s, conn);
    }
  }

  lemma ReadLineQueue(s: State, conn: nat)
    requires ConnsOk(s) && HandlerEnabled(s, conn, ReadLine) && QueueOk(s, conn)
    ensures QueueOk(HandlerNext(s, conn, ReadLine), conn)
  {
    assert LinesOk(s, conn);
    assert LineOk(s, conn, s.conns[conn].requests[0]);
  }

  lemma HandlerQueues(s: State, conn: nat, a: HandlerStep)
    requires Inv(s) && QueuesOk(s) && HandlerEnabled(s, conn, a)
    ensures QueuesOk(HandlerNext(s, conn, a))
  {
    var t := HandlerNext(s, conn, a);
    HandlerStepTouches(s, conn, a);
    HandlerQueue(s, conn, a);
    forall d | d in t.conns && d != conn
      ensures QueueOk(t, d)
    {
      assert QueueOk(s, d);
      forall call | Reached(s, d, call)
        ensures Reached(t, d, call)
      {
        assert t.stage[call] == s.stage[call];
      }
      QueueFrame(s, t, d);
    }
  }

  lemma StepSound(s: State, a: Action)
    requires Sound(s) && Enabled(s, a)
    ensures Sound(Next(s, a))
  {
    StepKeeps(s, a);
    match a {
      case ByNetwork(n) => NetworkQueues(s, n);
      case ByClient(c) => ClientQueues(s, c);
      case ByHandler(conn, h) => HandlerQueues(s, conn, h);
      case ByServer(v) => ServerQueues(s, v);
    }
  }

  /** In every state of every run replies are queued only for requests that were read and are no longer served. */
  lemma {:induction false} RunSound(run: seq<State>, actions: seq<Action>, n: nat)
    requires IsRun(run, actions) && n < |run|
    ensures Sound(run[n])
  {
    if n == 0 {
      RunKeeps(run, actions, 0);
    } else {
      RunSound(run, actions, n - 1);
      StepSound(run[n - 1], actions[n - 1]);
    }
  }

  /** A state of some run. The invariant is only looked up where it is needed. */
  ghost predicate Reachable(s: State) {
    exists run, actions :: IsRun(run, actions) && run[|actions|] == s
  }

  lemma ReachableIsSound(s: State)
    requires Reachable(s)
    ensures Sound(s)
  {
    var run, actions :| IsRun(run, actions) && run[|actions|] == s;
    RunSound(run, actions, |actions|);
  }

  lemma StepIsReachable(s: State, a: Action)
    requires Reachable(s) && Enabled(s, a)
    ensures Reachable(Next(s, a))
  {
    var run, actions :| IsRun(run, actions) && run[|actions|] == s;
    OneMoreStep(run, actions, a);
  }

  lemma OneMoreStep(run: seq<State>, actions: seq<Action>, a: Action)
    requires IsRun(run, actions) && Enabled(run[|actions|], a)
    ensures IsRun(run + [Next(run[|actions|], a)], actions + [a])
  {
  }

  lemma {:induction false} FollowsReachable(s: State, actions: seq<Action>, t: State)
    requires Reachable(s) && Follows(s, actions, t)
    ensures Reachable(t)
    decreases |actions|
  {
    if actions != [] {
      StepIsReachable(s, actions[0]);
      FollowsReachable(Next(s, actions[0]), actions[1..], t);
    }
  }

  // ----- a reply in a call's connection reaches the caller

  /** The call waits for its reply, and nothing has been put into its channel. */
  ghost predicate Waits(s: State, call: CallId) {
    && call in s.calls && s.calls[call].phase == Waiting && call.client !in s.failing
    && call in s.clientPending && s.clientPending[call] == None
  }

  /** The call's reply is queued behind `k` others. */
  ghost predicate QueuedAt(s: State, conn: nat, call: CallId, reply: Reply, k: nat) {
    && Waits(s, call) && conn in s.conns && s.conns[conn].client == call.client
    && k < |s.conns[conn].responses| && s.conns[conn].responses[k] == ResponseLine(call.seqNo, reply)
    && forall i :: 0 <= i < k ==> s.conns[conn].responses[i].seqNo != call.seqNo
  }

  ghost predicate Queued(s: State, conn: nat, call: CallId, reply: Reply, k: nat) {
    Reachable(s) && QueuedAt(s, conn, call, reply, k)
  }

  /** What a caller makes of a reply. */
  ghost predicate ReturnedWith(s: State, call: CallId, reply: Reply) {
    call in s.calls &&
    match reply
    case Result(v) => s.calls[call].phase == Returned(Value(v))
    case Failure(m) => s.calls[call].phase == Returned(CallError(m))
  }

  /** A call whose reply is queued is waiting for it or about to return. */
  lemma ReachedCall(s: State, conn: nat, r: ResponseLine)
    requires Reachable(s) && conn in s.conns && r in s.conns[conn].responses
    ensures var call := CallId(s.conns[conn].client, r.seqNo);
      call in s.clientPending ==> call in s.calls && (s.calls[call].phase.Waiting? || s.calls[call].phase.Leaving?)
  {
    var call := CallId(s.conns[conn].client, r.seqNo);
    ReachableIsSound(s);
    assert QueueOk(s, conn) && Reached(s, conn, call);
    if call in s.clientPending {
      assert CallOk(s, call);
    }
  }

  /** A reader in front of a full channel: the call that owns the channel empties it. */
  lemma Unblock(s: State, conn: nat, call: CallId, reply: Reply, k: nat, first: CallId, a: ClientStep)
    requires QueuedAt(s, conn, call, reply, k) && k > 0 && first == FirstResponse(s, conn)
    requires first in s.clientPending && s.clientPending[first] != None && first in s.calls
    requires if a.Receive? then a.call == first && s.calls[first].phase.Waiting?
             else a.Return? && a.call == first && s.calls[first].phase.Leaving?
    ensures ClientEnabled(s, a) && QueuedAt(ClientNext(s, a), conn, call, reply, k)
    ensures ClientEnabled(ClientNext(s, a), Route(conn))
  {
    assert first != call;
  }

  lemma RouteNext(s: State, conn: nat, call: CallId, reply: Reply, k: nat)
    requires QueuedAt(s, conn, call, reply, k) && k > 0 && ClientEnabled(s, Route(conn))
    ensures QueuedAt(ClientNext(s, Route(conn)), conn, call, reply, k - 1)
  {
    var before, after := s.conns[conn].responses, ClientNext(s, Route(conn)).conns[conn].responses;
    assert forall i :: 0 <= i < |after| ==> after[i] == before[i + 1];
    assert before[0].seqNo != call.seqNo;
  }

  lemma RouteLast(s: State, conn: nat, call: CallId, reply: Reply) returns (t: State)
    requires QueuedAt(s, conn, call, reply, 0)
    ensures Leads(s, t) && ReturnedWith(t, call, reply)
  {
    var routed := ClientNext(s, Route(conn));
    assert routed.clientPending[call] == Some(reply);
    var received := ClientNext(routed, Receive(call));
    t := ClientNext(received, Return(call));
    LeadsNowhere(t);
    LeadsThen(received, ByClient(Return(call)), t);
    LeadsThen(routed, ByClient(Receive(call)), t);
    LeadsThen(s, ByClient(Route(conn)), t);
  }

  /** The reply at the front is routed. */
  lemma OneLess(s: State, conn: nat, call: CallId, reply: Reply, k: nat) returns (t: State)
    requires Queued(s, conn, call, reply, k) && k > 0 && ClientEnabled(s, Route(conn))
    ensures Leads(s, t) && Queued(t, conn, call, reply, k - 1)
  {
    t := Next(s, ByClient(Route(conn)));
    RouteNext(s, conn, call, reply, k);
    StepIsReachable(s, ByClient(Route(conn)));
    LeadsNowhere(t);
    LeadsThen(s, ByClient(Route(conn)), t);
  }

  /** The channel at the front is emptied, and the reply there routed. */
  lemma OneLessBlocked(s: State, conn: nat, call: CallId, reply: Reply, k: nat) returns (t: State)
    requires Queued(s, conn, call, reply, k) && k > 0 && !ClientEnabled(s, Route(conn))
    ensures Leads(s, t) && Queued(t, conn, call, reply, k - 1)
  {
    var first := FirstResponse(s, conn);
    ReachedCall(s, conn, s.conns[conn].responses[0]);
    var a := if s.calls[first].phase.Waiting? then Receive(first) else Return(first);
    Unblock(s, conn, call, reply, k, first, a);
    StepIsReachable(s, ByClient(a));
    t := OneLess(Next(s, ByClient(a)), conn, call, reply, k);
    LeadsThen(s, ByClient(a), t);
  }

  lemma Closer(s: State, conn: nat, call: CallId, reply: Reply, k: nat) returns (t: State)
    requires Queued(s, conn, call, reply, k) && k > 0
    ensures Leads(s, t) && Queued(t, conn, call, reply, k - 1)
  {
    if ClientEnabled(s, Route(conn)) {
      t := OneLess(s, conn, call, reply, k);
    } else {
      t := OneLessBlocked(s, conn, call, reply, k);
    }
  }

  lemma {:induction false} QueuedReturns(s: State, conn: nat, call: CallId, reply: Reply, k: nat) returns (t: State)
    requires Queued(s, conn, call, reply, k)
    ensures Leads(s, t) && ReturnedWith(t, call, reply)
    decreases k
  {
    if k == 0 {
      t := RouteLast(s, conn, call, reply);
    } else {
      var next := Closer(s, conn, call, reply, k);
      t := QueuedReturns(next, conn, call, reply, k - 1);
      LeadsOn(s, next, t);
    }
  }

  // ----- an answer of the server reaches the call's connection

  /** The handler of this connection waits for the answer to the call's request. */
  ghost predicate AwaitsAt(s: State, conn: nat, call: CallId, id: int) {
    && Waits(s, call) && conn in s.conns && s.conns[conn].client == call.client
    && s.conns[conn].handler == Awaiting(call.seqNo, id)
  }

  ghost predicate Awaits(s: State, conn: nat, call: CallId, id: int) {
    Reachable(s) && AwaitsAt(s, conn, call, id)
  }

  ghost predicate Delivered(s: State, id: int, reply: Reply) {
    id in s.pending && s.pending[id] == Some(reply)
  }

  /** The handler takes the reply, forgets the request and writes the reply behind those that are queued. */
  lemma DeliveredSteps(s: State, conn: nat, call: CallId, id: int, reply: Reply) returns (t: State)
    requires AwaitsAt(s, conn, call, id) && Delivered(s, id, reply)
    requires forall r :: r in s.conns[conn].responses ==> r.seqNo != call.seqNo
    ensures Follows(s, [ByHandler(conn, TakeReply), ByHandler(conn, Delete), ByHandler(conn, SendReply)], t)
    ensures QueuedAt(t, conn, call, reply, |s.conns[conn].responses|)
  {
    var taken := Next(s, ByHandler(conn, TakeReply));
    var deleted := Next(taken, ByHandler(conn, Delete));
    t := Next(deleted, ByHandler(conn, SendReply));
    assert t.conns[conn].responses == s.conns[conn].responses + [ResponseLine(call.seqNo, reply)];
    ThreeSteps(s, ByHandler(conn, TakeReply), taken, ByHandler(conn, Delete), deleted, ByHandler(conn, SendReply), t);
  }

  lemma ThreeSteps(s: State, a: Action, t: State, b: Action, u: State, c: Action, v: State)
    requires Enabled(s, a) && t == Next(s, a) && Enabled(t, b) && u == Next(t, b) && Enabled(u, c) && v == Next(u, c)
    ensures Follows(s, [a, b, c], v)
  {
    assert [a, b, c][1..] == [b, c] && [b, c][1..] == [c] && [c][1..] == [];
    assert Follows(v, [], v);
    assert Follows(u, [c], v);
    assert Follows(t, [b, c], v);
  }

  lemma ServedIsNotQueued(s: State, conn: nat, call: CallId, id: int)
    requires Awaits(s, conn, call, id)
    ensures forall r :: r in s.conns[conn].responses ==> r.seqNo != call.seqNo
  {
    ReachableIsSound(s);
    assert QueueOk(s, conn);
  }

  lemma DeliveredIsQueued(s: State, conn: nat, call: CallId, id: int, reply: Reply) returns (t: State, k: nat)
    requires Awaits(s, conn, call, id) && Delivered(s, id, reply)
    ensures Leads(s, t) && Queued(t, conn, call, reply, k)
  {
    ServedIsNotQueued(s, conn, call, id);
    t := DeliveredSteps(s, conn, call, id, reply);
    k := |s.conns[conn].responses|;
    FollowsReachable(s, [ByHandler(conn, TakeReply), ByHandler(conn, Delete), ByHandler(conn, SendReply)], t);
  }

  /** The answer is among the server's output, behind `k` other messages. */
  ghost predicate Answers(s: State, id: int, reply: Reply, k: nat) {
    && k < |s.output| && RoutedId(s.output[k]) == Some(id) && s.output[k].reply == reply && id > 0 && id in s.pending
    && CanDeliver(s.pending, s.output[0])
    && forall i :: 0 <= i < k ==> RoutedId(s.output[i]) != Some(id)
  }

  lemma RouteOutput(s: State, conn: nat, call: CallId, id: int, reply: Reply, k: nat)
    requires AwaitsAt(s, conn, call, id) && Answers(s, id, reply, k)
    ensures Enabled(s, ByServer(ManagerRoute))
    ensures var t := Next(s, ByServer(ManagerRoute));
      && AwaitsAt(t, conn, call, id)
      && if k == 0 then Delivered(t, id, reply)
         else CanDeliver(t.pending, t.output[0]) ==> Answers(t, id, reply, k - 1)
  {
    var before, after := s.output, Next(s, ByServer(ManagerRoute)).output;
    assert forall i :: 0 <= i < |after| ==> after[i] == before[i + 1];
  }

  lemma NeverBlocks(s: State)
    requires Reachable(s) && s.output != []
    ensures CanDeliver(s.pending, s.output[0])
  {
    ReachableIsSound(s);
    assert OutputOk(s, s.output[0]);
  }

  lemma {:induction false} AnswerIsDelivered(s: State, conn: nat, call: CallId, id: int, reply: Reply, k: nat)
      returns (t: State)
    requires Awaits(s, conn, call, id) && Answers(s, id, reply, k)
    ensures Leads(s, t) && Awaits(t, conn, call, id) && Delivered(t, id, reply)
    decreases k
  {
    RouteOutput(s, conn, call, id, reply, k);
    t := Next(s, ByServer(ManagerRoute));
    StepIsReachable(s, ByServer(ManagerRoute));
    if k == 0 {
      LeadsNowhere(t);
    } else {
      NeverBlocks(t);
      t := AnswerIsDelivered(t, conn, call, id, reply, k - 1);
    }
    LeadsThen(s, ByServer(ManagerRoute), t);
  }

  lemma NotYetAnswered(s: State, conn: nat, call: CallId, id: int)
    requires Awaits(s, conn, call, id) && id !in s.answers
    ensures id > 0 && id in s.pending && forall i :: 0 <= i < |s.output| ==> RoutedId(s.output[i]) != Some(id)
  {
    ReachableIsSound(s);
    assert HandlerOk(s, conn);
    forall i | 0 <= i < |s.output|
      ensures RoutedId(s.output[i]) != Some(id)
    {
      assert OutputOk(s, s.output[i]);
    }
  }

  lemma AnswerIsQueued(s: State, conn: nat, call: CallId, id: int, echo: Id, reply: Reply) returns (t: State)
    requires Awaits(s, conn, call, id) && ServerEnabled(s, Answer(id, echo, reply))
    ensures t == Next(s, ByServer(Answer(id, echo, reply)))
    ensures Awaits(t, conn, call, id) && Answers(t, id, reply, |s.output|)
  {
    t := Next(s, ByServer(Answer(id, echo, reply)));
    NotYetAnswered(s, conn, call, id);
    StepIsReachable(s, ByServer(Answer(id, echo, reply)));
    NeverBlocks(t);
  }

  /**
   From every reachable state in which a call's request has reached the server and neither its caller nor its
   handler has given up: whatever the server answers, there is a way on that ends with the call returning it.
   */
  lemma EveryAnswerCanReturn(run: seq<State>, actions: seq<Action>, n: nat, call: CallId, conn: nat, id: int, echo: Id,
                             reply: Reply) returns (t: State)
    requires IsRun(run, actions) && n < |run| && Waits(run[n], call)
    requires conn in run[n].conns && run[n].conns[conn].client == call.client
    requires run[n].conns[conn].handler == Awaiting(call.seqNo, id)
    requires id in run[n].asked && id !in run[n].answers && echo.IsSet() && echo.AsInt64() == id
    ensures Enabled(run[n], ByServer(Answer(id, echo, reply)))
    ensures Leads(Next(run[n], ByServer(Answer(id, echo, reply))), t)
    ensures call in t.calls
    ensures match reply
      case Result(v) => t.calls[call].phase == Returned(Value(v))
      case Failure(m) => t.calls[call].phase == Returned(CallError(m))
  {
    assert IsRun(run[..n + 1], actions[..n]);
    t := AnswerReturns(run[n], conn, call, id, echo, reply);
  }

  lemma AnswerReturns(s: State, conn: nat, call: CallId, id: int, echo: Id, reply: Reply) returns (t: State)
    requires Awaits(s, conn, call, id) && ServerEnabled(s, Answer(id, echo, reply))
    ensures Leads(Next(s, ByServer(Answer(id, echo, reply))), t) && ReturnedWith(t, call, reply)
  {
    var answered := AnswerIsQueued(s, conn, call, id, echo, reply);
    var delivered := AnswerIsDelivered(answered, conn, call, id, reply, |s.output|);
    var queued, k := DeliveredIsQueued(delivered, conn, call, id, reply);
    t := QueuedReturns(queued, conn, call, reply, k);
    LeadsOn(delivered, queued, t);
    LeadsOn(answered, delivered, t);
  }

  // ----- a request reaches the server

  /** The call's request is on the wire behind `k` others, and somebody reads them. */
  ghost predicate LinedUp(s: State, conn: nat, call: CallId, request: Request, k: nat) {
    && Waits(s, call) && conn in s.conns && s.conns[conn].client == call.client && !s.conns[conn].handler.Stopped?
    && k < |s.conns[conn].requests| && s.conns[conn].requests[k] == RequestLine(call.seqNo, request)
  }

  /** How far a handler is from being idle. */
  function Rank(h: Handler): nat {
    match h
    case Handling(_, _) => 4
    case Allocated(_, _, _) => 3
    case Awaiting(_, _) => 3
    case Finishing(_, _, _) => 2
    case Replying(_, _) => 1
    case _ => 0
  }

  /** A busy handler can always be finished, if need be by failing the request it works for. */
  function Clearing(h: Handler): HandlerStep
    requires !h.Idle? && !h.Stopped?
  {
    match h
    case Handling(_, request) => if IsForwarded(request.name) then Allocate else ReplyLocally(Failure(""))
    case Allocated(_, _, _) => ForwardFails
    case Awaiting(_, _) => TimeOut
    case Finishing(_, _, _) => Delete
    case Replying(_, _) => SendReply
  }

  /** Handler steps other than reading and stopping leave the queue of requests and the callers alone. */
  lemma LinedUpStays(s: State, conn: nat, a: HandlerStep, call: CallId, request: Request, k: nat)
    requires LinedUp(s, conn, call, request, k) && HandlerEnabled(s, conn, a) && !a.ReadLine? && !a.Stop?
    ensures LinedUp(HandlerNext(s, conn, a), conn, call, request, k)
  {
    var t := HandlerNext(s, conn, a);
    assert t.calls == s.calls && t.clientPending == s.clientPending && t.failing == s.failing;
  }

  lemma ClearingIsEnabled(s: State, conn: nat)
    requires conn in s.conns && !s.conns[conn].handler.Idle? && !s.conns[conn].handler.Stopped?
    ensures HandlerEnabled(s, conn, Clearing(s.conns[conn].handler))
  {
  }

  lemma RankFalls(s: State, conn: nat, a: HandlerStep)
    requires HandlerEnabled(s, conn, a) && !s.conns[conn].handler.Idle? && !s.conns[conn].handler.Stopped?
    requires a == Clearing(s.conns[conn].handler)
    ensures Rank(HandlerNext(s, conn, a).conns[conn].handler) < Rank(s.conns[conn].handler)
  {
  }

  lemma Clears(s: State, conn: nat, call: CallId, request: Request, k: nat) returns (a: HandlerStep)
    requires LinedUp(s, conn, call, request, k) && !s.conns[conn].handler.Idle?
    ensures HandlerEnabled(s, conn, a) && LinedUp(Next(s, ByHandler(conn, a)), conn, call, request, k)
    ensures Rank(Next(s, ByHandler(conn, a)).conns[conn].handler) < Rank(s.conns[conn].handler)
  {
    a := Clearing(s.conns[conn].handler);
    ClearingIsEnabled(s, conn);
    LinedUpStays(s, conn, a, call, request, k);
    RankFalls(s, conn, a);
  }

  lemma ReadsOther(s: State, conn: nat, call: CallId, request: Request, k: nat)
    requires LinedUp(s, conn, call, request, k) && k > 0 && s.conns[conn].handler.Idle?
    ensures HandlerEnabled(s, conn, ReadLine) && LinedUp(HandlerNext(s, conn, ReadLine), conn, call, request, k - 1)
  {
  }

  /** The handler is about to read the call's request. */
  ghost predicate ReadsNext(s: State, conn: nat, call: CallId, request: Request) {
    LinedUp(s, conn, call, request, 0) && s.conns[conn].handler.Idle?
  }

  lemma {:induction false} ComesFirst(s: State, conn: nat, call: CallId, request: Request, k: nat) returns (t: State)
    requires LinedUp(s, conn, call, request, k)
    ensures Leads(s, t) && ReadsNext(t, conn, call, request)
    decreases k, Rank(s.conns[conn].handler)
  {
    if !s.conns[conn].handler.Idle? {
      var a := Clears(s, conn, call, request, k);
      t := ComesFirst(Next(s, ByHandler(conn, a)), conn, call, request, k);
      LeadsThen(s, ByHandler(conn, a), t);
    } else if k > 0 {
      ReadsOther(s, conn, call, request, k);
      t := ComesFirst(Next(s, ByHandler(conn, ReadLine)), conn, call, request, k - 1);
      LeadsThen(s, ByHandler(conn, ReadLine), t);
    } else {
      t := s;
      LeadsNowhere(s);
    }
  }

  /** The handler reads the request, gives it a fresh id and forwards it. */
  lemma IsForwardedNext(s: State, conn: nat, call: CallId, request: Request) returns (t: State)
    requires ReadsNext(s, conn, call, request) && IsForwarded(request.name)
    ensures Follows(s, [ByHandler(conn, ReadLine), ByHandler(conn, Allocate), ByHandler(conn, Forward)], t)
    ensures AwaitsAt(t, conn, call, s.requestID + 1) && t.answers == s.answers
    ensures s.requestID + 1 in t.asked && t.asked[s.requestID + 1] == request
  {
    var read := Next(s, ByHandler(conn, ReadLine));
    var numbered := Next(read, ByHandler(conn, Allocate));
    t := Next(numbered, ByHandler(conn, Forward));
    ThreeSteps(s, ByHandler(conn, ReadLine), read, ByHandler(conn, Allocate), numbered, ByHandler(conn, Forward), t);
  }

  lemma NextIdIsFresh(s: State)
    requires Reachable(s)
    ensures s.requestID + 1 !in s.answers
  {
    ReachableIsSound(s);
  }

  lemma IsLinedUp(s: State, call: CallId, conn: nat) returns (t: State)
    requires call in s.calls && s.calls[call].phase == Registered && call.client !in s.failing
    requires call in s.clientPending && s.clientPending[call] == None
    requires call.client in s.current && s.current[call.client] == Some(conn)
    requires conn in s.conns && s.conns[conn].client == call.client && !s.conns[conn].handler.Stopped?
    ensures Leads(s, t) && LinedUp(t, conn, call, s.calls[call].request, |s.conns[conn].requests|)
  {
    var taken := Next(s, ByClient(TakeConn(call)));
    t := Next(taken, ByClient(Write(call)));
    LeadsNowhere(t);
    LeadsThen(taken, ByClient(Write(call)), t);
    LeadsThen(s, ByClient(TakeConn(call)), t);
  }

  lemma LeadsReachable(s: State, t: State)
    requires Reachable(s) && Leads(s, t)
    ensures Reachable(t)
  {
    var actions :| Follows(s, actions, t);
    FollowsReachable(s, actions, t);
  }

  /**
   From every reachable state, whatever else is going on: a call that has just been started on a connection somebody
   serves can be brought to the server, which is then asked exactly its request.
   */
  lemma EveryRequestCanBeAsked(s: State, call: CallId, conn: nat) returns (t: State, id: int)
    requires Reachable(s) && call in s.calls && IsForwarded(s.calls[call].request.name)
    requires s.calls[call].phase == Registered && call.client !in s.failing
    requires call in s.clientPending && s.clientPending[call] == None
    requires call.client in s.current && s.current[call.client] == Some(conn)
    requires conn in s.conns && s.conns[conn].client == call.client && !s.conns[conn].handler.Stopped?
    ensures Leads(s, t) && Awaits(t, conn, call, id)
    ensures id in t.asked && t.asked[id] == s.calls[call].request && id !in t.answers
  {
    var request := s.calls[call].request;
    var written := IsLinedUp(s, call, conn);
    var first := ComesFirst(written, conn, call, request, |s.conns[conn].requests|);
    LeadsOn(s, written, first);
    LeadsReachable(s, first);
    NextIdIsFresh(first);
    id := first.requestID + 1;
    t := IsForwardedNext(first, conn, call, request);
    FollowsReachable(first, [ByHandler(conn, ReadLine), ByHandler(conn, Allocate), ByHandler(conn, Forward)], t);
    LeadsOn(s, first, t);
  }

  /** So a call can return whatever a server may answer. */
  lemma EveryCallCanReturn(s: State, call: CallId, conn: nat, reply: Reply) returns (t: State)
    requires Reachable(s) && call in s.calls && IsForwarded(s.calls[call].request.name)
    requires s.calls[call].phase == Registered && call.client !in s.failing
    requires call in s.clientPending && s.clientPending[call] == None
    requires call.client in s.current && s.current[call.client] == Some(conn)
    requires conn in s.conns && s.conns[conn].client == call.client && !s.conns[conn].handler.Stopped?
    ensures Leads(s, t) && ReturnedWith(t, call, reply)
  {
    var asked, id := EveryRequestCanBeAsked(s, call, conn);
    var a := ByServer(Answer(id, Id(Some(id), None), reply));
    var answered := AnswerReturns(asked, conn, call, id, Id(Some(id), None), reply);
    LeadsThen(asked, a, answered);
    t := answered;
    LeadsOn(s, asked, t);
  }

  lemma InitialIsReachable(s: State)
    requires Initial(s)
    ensures Reachable(s)
  {
    assert IsRun([s], []);
  }

  /** A client with a fresh connection. */
  lemma DialOnly() returns (s: State)
    ensures Reachable(s) && s.lastId == map[0 := 0] && s.failing == map[] && s.calls == map[]
    ensures s.clientPending == map[] && s.current == map[0 := Some(0)]
    ensures s.conns == map[0 := Connection(0, true, [], Idle, [])]
  {
    var nothing := State(map[0 := 0], map[], map[], map[], map[], map[], 0, map[], map[], map[], [], map[], map[], {});
    InitialIsReachable(nothing);
    StepIsReachable(nothing, ByNetwork(Dial(0, 0)));
    s := NetworkNext(nothing, Dial(0, 0));
  }

  /** The client has just started a call. */
  lemma StartOnly(request: Request) returns (s: State)
    ensures Reachable(s) && CallId(0, 1) in s.calls && s.calls[CallId(0, 1)] == Call(request, Registered)
    ensures s.failing == map[] && s.clientPending == map[CallId(0, 1) := None]
    ensures s.current == map[0 := Some(0)] && s.conns == map[0 := Connection(0, true, [], Idle, [])]
  {
    var dialled := DialOnly();
    StepIsReachable(dialled, ByClient(Start(0, request)));
    s := ClientNext(dialled, Start(0, request));
  }

  /** A hover request of a single client without any fault: the server's answer is what the call returns. */
  lemma HoverReturns(params: string, value: string) returns (s: State, t: State)
    ensures Reachable(s) && CallId(0, 1) in s.calls
    ensures s.calls[CallId(0, 1)] == Call(Request("textDocument/hover", params), Registered)
    ensures Leads(s, t) && CallId(0, 1) in t.calls
    ensures t.calls[CallId(0, 1)].phase == Returned(Value(value))
  {
    s := StartOnly(Request("textDocument/hover", params));
    t := EveryCallCanReturn(s, CallId(0, 1), 0, Result(value));
  }
}

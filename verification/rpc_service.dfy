/**
  One MessagePack RPC connection as a state machine: the reader and writer loop of
  `start_msgpack_rpc` (cli/src/msgpack_rpc.rs), the jobs it spawns, `register_stream` and its
  forwarding tasks, the stream table, and the callers that share the connection
  (cli/src/rpc.rs). The peer and the order of all tasks are arbitrary.
 */
module RpcService {
  import opened Wrappers
  import opened RpcDispatch
  import S = Streams

  /** `mpsc::channel::<Vec<u8>>(8)`. */
  const CAPACITY: nat := 8
  /** The size of a forwarding task's buffer. */
  const FORWARD_BUFFER: nat := 4096

  /** What is queued for the peer. `req` numbers dispatched messages; it is not on the wire. */
  datatype Msg =
    | Response(req: nat, id: Id, code: Code)
    | Started(req: nat, forRequest: Id, streams: seq<Id>)
    | Data(stream: Id, segment: Chunk)
    | Ended(stream: Id)

  datatype Status =
    | Quiet                              // nothing to answer, or nothing left to do
    | Waiting                            // the loop is about to queue the answer
    | Opening(job: Job)                  // the loop is in `register_stream`
    | InFlight(job: Job, ran: bool)      // spawned
    | Answered(pos: nat)                 // the answer is at this place in `queued`

  /** A dispatched message; `announced` is where its `streams_started` was queued. */
  datatype Req = Req(frame: Frame, status: Status, opens: bool, announced: Option<nat>)

  /** Where the service loop is. */
  datatype Pc =
    | Selecting
    | Draining
    | Replying(req: nat, reply: Reply)
    | Announcing(req: nat, job: Job, streams: seq<Id>, missing: nat)  // still taking ids while some are missing
    | Registering(req: nat, job: Job, streams: seq<Id>)
    | Crashed

  /** Who took an id of the process: a call or a stream of this connection, or somebody else. */
  datatype Owner = OfCall(call: nat) | OfStream(req: nat) | Elsewhere

  /** A call made on this side: its id, when its callback was registered, what resolved it. */
  datatype Caller = Caller(id: Id, registeredAt: Option<nat>, resolvedBy: seq<nat>)

  datatype State = State(
    methods: MethodTable,
    streams: S.State,
    owners: seq<Owner>,        // who got each id that the process handed out so far
    sent: seq<Frame>,          // everything the peer has sent
    received: nat,             // ... of which so much was read,
    reqs: seq<Req>,            // ... and so much dispatched
    pc: Pc,
    queued: seq<Msg>,          // everything ever put into the channel
    taken: nat,                // ... of which so much was written out
    started: map<Id, nat>,     // where each stream was announced in `queued`
    forwarding: set<Id>,
    calls: map<Id, nat>,
    callers: seq<Caller>,
    outbox: seq<nat>           // calls sent, but not yet written out
  )

  datatype Event =
    | PeerSends(frame: Frame)
    | Receive(count: nat)
    | Dispatch(ok: bool)
    | Settle
    | SendReply
    | TakeStreamId
    | TakeElsewhere
    | Announce
    | Register
    | Spawn
    | RunJob(req: nat)
    | FinishJob(req: nat, ok: bool)
    | StreamTask(event: S.Event)
    | Forward(stream: Id, segment: Chunk)
    | FinishForward(stream: Id)
    | WriteOut
    | StartCall
    | RegisterCall(call: nat)
    | WriteCall

  function Start(methods: MethodTable): State {
    State(methods, S.INIT, [], [], 0, [], Selecting, [], 0, map[], {}, map[], [], [])
  }

  predicate Room(s: State) {
    s.pc != Crashed && |s.queued| < s.taken + CAPACITY
  }

  predicate Enabled(s: State, e: Event) {
    match e
    case PeerSends(_) => true
    case Receive(n) => s.pc.Selecting? && s.received + n <= |s.sent|
    case Dispatch(_) => s.pc.Draining? && |s.reqs| < s.received <= |s.sent|
    case Settle => s.pc.Draining? && |s.reqs| == s.received
    case SendReply => s.pc.Replying? && s.pc.req < |s.reqs| && Room(s)
    case TakeStreamId => s.pc.Announcing? && s.pc.missing > 0
    case TakeElsewhere => true
    case Announce => s.pc.Announcing? && s.pc.missing == 0 && s.pc.req < |s.reqs| && Room(s)
    case Register => s.pc.Registering? && s.pc.streams != []
    case Spawn => s.pc.Registering? && s.pc.req < |s.reqs| && s.pc.streams == []
    case RunJob(r) => r < |s.reqs| && s.reqs[r].status.InFlight? && !s.reqs[r].status.ran
    case FinishJob(r, _) =>
      && r < |s.reqs| && s.reqs[r].status.InFlight? && s.reqs[r].status.ran
      && (s.reqs[r].status.job.id.Some? ==> Room(s))
    case StreamTask(t) => (t.Pass? || t.Deliver? || t.Fail? || t.Shut?) && S.Enabled(s.streams, t)
    case Forward(i, segment) => i in s.forwarding && Room(s) && 0 < |segment| <= FORWARD_BUFFER
    case FinishForward(i) => i in s.forwarding && Room(s)
    case WriteOut => s.pc.Selecting? && s.taken < |s.queued|
    case StartCall => true
    case RegisterCall(k) => k < |s.callers| && s.callers[k].registeredAt.None?
    case WriteCall => s.pc.Selecting? && s.outbox != []
  }

  function SetStatus(s: State, r: nat, status: Status): seq<Req>
    requires r < |s.reqs|
  {
    s.reqs[r := s.reqs[r].(status := status)]
  }

  /** The loop goes on with the next message, or first queues a reply. */
  function AfterReply(s: State, f: Frame, reply: Option<Reply>): State {
    if reply.Some? then
      s.(reqs := s.reqs + [Req(f, Waiting, false, None)], pc := Replying(|s.reqs|, reply.value))
    else
      s.(reqs := s.reqs + [Req(f, Quiet, false, None)])
  }

  function Resolve(callers: seq<Caller>, call: Option<nat>, r: nat): seq<Caller> {
    if call.Some? && call.value < |callers| then
      var c := callers[call.value];
      callers[call.value := c.(resolvedBy := c.resolvedBy + [r])]
    else
      callers
  }

  /** What the loop does with the outcome of dispatching `f`. */
  function Apply(s: State, f: Frame, o: Outcome): State {
    var r := |s.reqs|;
    match o
    case Panicked => s.(reqs := s.reqs + [Req(f, Quiet, false, None)], pc := Crashed)
    case Replied(reply) => AfterReply(s, f, reply)
    case Wrote(i, segment, reply) => AfterReply(s.(streams := S.Step(s.streams, S.Write(i, segment))), f, reply)
    case Spawned(job) => s.(reqs := s.reqs + [Req(f, InFlight(job, false), false, None)])
    case Opened(n, job) =>
      s.(reqs := s.reqs + [Req(f, Opening(job), true, None)], pc := Announcing(r, job, [], n))
    case Resolved(call) =>
      s.(reqs := s.reqs + [Req(f, Quiet, false, None)],
         calls := CallsAfter(s.calls, f),
         callers := Resolve(s.callers, call, r))
  }

  function DoDispatch(s: State, ok: bool): State
    requires Enabled(s, Dispatch(ok))
  {
    var f := s.sent[|s.reqs|];
    Apply(s, f, Dispatched(s.methods, s.calls, f, ok))
  }

  function DoAnnounce(s: State): State
    requires Enabled(s, Announce)
  {
    var Announcing(r, job, ids, _) := s.pc;
    var forRequest := if job.id.Some? then job.id.value else 0;
    s.(queued := s.queued + [Started(r, forRequest, ids)],
       reqs := s.reqs[r := s.reqs[r].(announced := Some(|s.queued|))],
       started := s.started + (map i | i in ids :: |s.queued|),
       pc := Registering(r, job, ids))
  }

  function DoRunJob(s: State, r: nat): State
    requires Enabled(s, RunJob(r))
  {
    var job := s.reqs[r].status.job;
    s.(reqs := SetStatus(s, r, InFlight(job, true)),
       streams := if job.kind.Removal? then S.Step(s.streams, S.Remove(job.kind.stream)) else s.streams)
  }

  function DoFinishJob(s: State, r: nat, ok: bool): State
    requires Enabled(s, FinishJob(r, ok))
  {
    var job := s.reqs[r].status.job;
    var code := match job.kind
      case Reject => BadParams
      case Callback => if ok then Succeeded else Failed
      case Removal(_) => Succeeded;
    if job.id.Some? then
      s.(queued := s.queued + [Response(r, job.id.value, code)], reqs := SetStatus(s, r, Answered(|s.queued|)))
    else
      s.(reqs := SetStatus(s, r, Quiet))
  }

  function Step(s: State, e: Event): State
    requires Enabled(s, e)
  {
    match e
    case PeerSends(f) => s.(sent := s.sent + [f])
    case Receive(n) => s.(received := s.received + n, pc := Draining)
    case Dispatch(ok) => DoDispatch(s, ok)
    case Settle => s.(pc := Selecting)
    case SendReply =>
      s.(queued := s.queued + [Response(s.pc.req, s.pc.reply.id, s.pc.reply.code)],
         reqs := SetStatus(s, s.pc.req, Answered(|s.queued|)),
         pc := Draining)
    case TakeStreamId =>
      s.(owners := s.owners + [OfStream(s.pc.req)],
         pc := Announcing(s.pc.req, s.pc.job, s.pc.streams + [NthId(|s.owners|)], s.pc.missing - 1))
    case TakeElsewhere => s.(owners := s.owners + [Elsewhere])
    case Announce => DoAnnounce(s)
    case Register =>
      s.(streams := S.Step(s.streams, S.Insert(s.pc.streams[0])),
         forwarding := s.forwarding + {s.pc.streams[0]},
         pc := Registering(s.pc.req, s.pc.job, s.pc.streams[1..]))
    case Spawn => s.(reqs := SetStatus(s, s.pc.req, InFlight(s.pc.job, false)), pc := Draining)
    case RunJob(r) => DoRunJob(s, r)
    case FinishJob(r, ok) => DoFinishJob(s, r, ok)
    case StreamTask(t) => s.(streams := S.Step(s.streams, t))
    case Forward(i, segment) => s.(queued := s.queued + [Data(i, segment)])
    case FinishForward(i) => s.(queued := s.queued + [Ended(i)], forwarding := s.forwarding - {i})
    case WriteOut => s.(taken := s.taken + 1)
    case StartCall =>
      s.(owners := s.owners + [OfCall(|s.callers|)],
         callers := s.callers + [Caller(NthId(|s.owners|), None, [])],
         outbox := s.outbox + [|s.callers|])
    case RegisterCall(k) =>
      s.(calls := s.calls[s.callers[k].id := k],
         callers := s.callers[k := s.callers[k].(registeredAt := Some(|s.reqs|))])
    case WriteCall => s.(outbox := s.outbox[1..])
  }

  predicate Legal(s: State, es: seq<Event>)
    decreases |es|
  {
    es == [] || (Enabled(s, es[0]) && Legal(Step(s, es[0]), es[1..]))
  }

  function Exec(s: State, es: seq<Event>): State
    requires Legal(s, es)
    decreases |es|
  {
    if es == [] then s else Exec(Step(s, es[0]), es[1..])
  }

  /** Ids are 32 bits wide; the claims below are for runs in which the process hands out no more than there are. */
  predicate NoWrap(s: State) {
    |s.owners| <= ID_SPACE
  }
}

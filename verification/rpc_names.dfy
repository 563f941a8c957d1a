/**
  Who owns which id in a run of `RpcService`, and what that means for the order of the
  messages of a stream. As long as the 32-bit counter has not come round, ids are never
  shared, so the stream table only ever sees new ones.
 */
module RpcNames {
  import opened Wrappers
  import opened RpcDispatch
  import opened RpcService
  import S = Streams

  /** The part of the state that ids are about. */
  datatype Names = Names(
    owners: seq<Owner>,
    home: set<Id>,
    started: map<Id, nat>,
    forwarding: set<Id>,
    pc: Pc,
    queued: seq<Msg>,
    taken: nat
  )

  function NamesOf(s: State): Names {
    Names(s.owners, s.streams.home.Keys, s.started, s.forwarding, s.pc, s.queued, s.taken)
  }

  predicate StreamId(owners: seq<Owner>, id: Id) {
    id < |owners| && owners[id].OfStream?
  }

  function Upcoming(pc: Pc): seq<Id> {
    if pc.Announcing? || pc.Registering? then pc.streams else []
  }

  /** A stream is announced, then registered, and only then can its announcement be written out. */
  ghost predicate LifeOk(n: Names) {
    && (forall id | id in n.home :: id in n.started)
    && (forall id | id in n.started ::
          && StreamId(n.owners, id) && n.started[id] < |n.queued|
          && (id in n.home || (n.pc.Registering? && id in n.pc.streams)))
    && (forall id | id in Upcoming(n.pc) ::
          && StreamId(n.owners, id) && id !in n.home
          && (n.pc.Announcing? ==> id !in n.started)
          && (n.pc.Registering? ==> id in n.started && n.taken <= n.started[id]))
    && (forall a, b :: 0 <= a < b < |Upcoming(n.pc)| ==> Upcoming(n.pc)[a] < Upcoming(n.pc)[b])
  }

  predicate About(m: Msg, id: Id) {
    (m.Data? || m.Ended?) && m.stream == id
  }

  /** What is queued about a stream follows its announcement, and nothing follows its end. */
  ghost predicate MsgOk(n: Names, p: nat)
    requires p < |n.queued|
  {
    n.queued[p].Data? || n.queued[p].Ended? ==>
      var id := n.queued[p].stream;
      && id in n.home && id in n.started && n.started[id] < p
      && (n.queued[p].Ended? ==>
            id !in n.forwarding && forall q :: p < q < |n.queued| ==> !About(n.queued[q], id))
  }

  ghost predicate StartOk(n: Names, id: Id)
    requires id in n.started && n.started[id] < |n.queued|
  {
    n.queued[n.started[id]].Started? && id in n.queued[n.started[id]].streams
  }

  ghost predicate OrderOk(n: Names) {
    && (forall id | id in n.forwarding :: id in n.home)
    && (forall id | id in n.started :: n.started[id] < |n.queued| && StartOk(n, id))
    && (forall p: nat | p < |n.queued| :: MsgOk(n, p))
  }

  ghost predicate NamesOk(n: Names) {
    LifeOk(n) && OrderOk(n)
  }

  // ------------------------------------------------------------------------
  // Each kind of change keeps it.
  // ------------------------------------------------------------------------

  /** Moving between two places where no stream is being opened; writing out only while selecting. */
  lemma MoveKeepsNames(n: Names, pc: Pc, taken: nat)
    requires NamesOk(n) && Upcoming(n.pc) == [] && !pc.Announcing? && !pc.Registering?
    ensures NamesOk(n.(pc := pc, taken := taken))
  {
    var n' := n.(pc := pc, taken := taken);
    forall p: nat | p < |n.queued|
      ensures MsgOk(n', p)
    {
      assert MsgOk(n, p);
    }
    forall id | id in n'.started
      ensures StartOk(n', id)
    {
      assert StartOk(n, id);
    }
  }

  lemma OwnersKeepNames(n: Names, more: seq<Owner>)
    requires NamesOk(n)
    ensures NamesOk(n.(owners := n.owners + more))
  {
    var n' := n.(owners := n.owners + more);
    forall id | StreamId(n.owners, id)
      ensures StreamId(n'.owners, id)
    {
    }
    forall p: nat | p < |n.queued|
      ensures MsgOk(n', p)
    {
      assert MsgOk(n, p);
    }
    forall id | id in n'.started
      ensures StartOk(n', id)
    {
      assert StartOk(n, id);
    }
  }

  /** A duplex call has taken no id yet. */
  lemma OpenKeepsNames(n: Names, r: nat, job: Job, count: nat)
    requires NamesOk(n) && n.pc.Draining?
    ensures NamesOk(n.(pc := Announcing(r, job, [], count)))
  {
    var n' := n.(pc := Announcing(r, job, [], count));
    forall p: nat | p < |n'.queued|
      ensures MsgOk(n', p)
    {
      assert MsgOk(n, p);
    }
    forall id | id in n'.started
      ensures StartOk(n', id)
    {
      assert StartOk(n, id);
    }
  }

  lemma TakeKeepsLife(n: Names, missing: nat)
    requires LifeOk(n) && n.pc.Announcing? && |n.owners| < ID_SPACE
    ensures LifeOk(n.(owners := n.owners + [OfStream(n.pc.req)],
                      pc := Announcing(n.pc.req, n.pc.job, n.pc.streams + [NthId(|n.owners|)], missing)))
  {
    var id := NthId(|n.owners|);
    var n' := n.(owners := n.owners + [OfStream(n.pc.req)],
                 pc := Announcing(n.pc.req, n.pc.job, n.pc.streams + [id], missing));
    assert id == |n.owners| && StreamId(n'.owners, id);
    forall i | StreamId(n.owners, i)
      ensures StreamId(n'.owners, i) && i < id
    {
    }
    forall a, b | 0 <= a < b < |Upcoming(n'.pc)|
      ensures Upcoming(n'.pc)[a] < Upcoming(n'.pc)[b]
    {
      assert Upcoming(n.pc)[a] in Upcoming(n.pc);
    }
  }

  /** It takes an id that nobody has yet, and that is greater than those it has. */
  lemma TakeKeepsNames(n: Names, missing: nat)
    requires NamesOk(n) && n.pc.Announcing? && |n.owners| < ID_SPACE
    ensures NamesOk(n.(owners := n.owners + [OfStream(n.pc.req)],
                       pc := Announcing(n.pc.req, n.pc.job, n.pc.streams + [NthId(|n.owners|)], missing)))
  {
    var n' := n.(owners := n.owners + [OfStream(n.pc.req)],
                 pc := Announcing(n.pc.req, n.pc.job, n.pc.streams + [NthId(|n.owners|)], missing));
    TakeKeepsLife(n, missing);
    forall p: nat | p < |n'.queued|
      ensures MsgOk(n', p)
    {
      assert MsgOk(n, p);
    }
    forall i | i in n'.started
      ensures StartOk(n', i)
    {
      assert StartOk(n, i);
    }
  }

  lemma AnnounceKeepsLife(n: Names, m: Msg, n': Names)
    requires LifeOk(n) && n.pc.Announcing? && n.taken <= |n.queued|
    requires n' == n.(queued := n.queued + [m],
                      started := n.started + (map i | i in n.pc.streams :: |n.queued|),
                      pc := Registering(n.pc.req, n.pc.job, n.pc.streams))
    ensures LifeOk(n') && n'.queued[|n.queued|] == m
    ensures forall id | id in n.started :: id !in n.pc.streams && n'.started[id] == n.started[id]
  {
    assert Upcoming(n'.pc) == Upcoming(n.pc);
    assert forall id | id in n.started :: id !in n.pc.streams && n'.started[id] == n.started[id];
  }

  lemma AnnounceKeepsNames(n: Names, m: Msg)
    requires NamesOk(n) && n.pc.Announcing? && n.taken <= |n.queued|
    requires m.Started? && m.streams == n.pc.streams
    ensures NamesOk(n.(queued := n.queued + [m],
                       started := n.started + (map i | i in n.pc.streams :: |n.queued|),
                       pc := Registering(n.pc.req, n.pc.job, n.pc.streams)))
  {
    var n' := n.(queued := n.queued + [m],
                 started := n.started + (map i | i in n.pc.streams :: |n.queued|),
                 pc := Registering(n.pc.req, n.pc.job, n.pc.streams));
    AnnounceKeepsLife(n, m, n');
    forall p: nat | p < |n'.queued|
      ensures MsgOk(n', p)
    {
      if p < |n.queued| {
        assert MsgOk(n, p);
      }
    }
    forall id | id in n'.started
      ensures n'.started[id] < |n'.queued| && StartOk(n', id)
    {
      if id in n.started {
        assert StartOk(n, id);
      }
    }
  }

  lemma RegisterKeepsNames(n: Names)
    requires NamesOk(n) && n.pc.Registering? && n.pc.streams != []
    ensures n.pc.streams[0] !in n.home
    ensures NamesOk(n.(home := n.home + {n.pc.streams[0]}, forwarding := n.forwarding + {n.pc.streams[0]},
                       pc := Registering(n.pc.req, n.pc.job, n.pc.streams[1..])))
  {
    var i := n.pc.streams[0];
    var n' := n.(home := n.home + {i}, forwarding := n.forwarding + {i},
                 pc := Registering(n.pc.req, n.pc.job, n.pc.streams[1..]));
    assert n.pc.streams == [i] + n.pc.streams[1..];
    assert i in Upcoming(n.pc);
    forall id | id in n'.pc.streams
      ensures id in Upcoming(n.pc) && id != i
    {
      var a :| 0 <= a < |n'.pc.streams| && n'.pc.streams[a] == id;
      assert Upcoming(n.pc)[a + 1] == id && Upcoming(n.pc)[0] < Upcoming(n.pc)[a + 1];
    }
    forall p: nat | p < |n'.queued|
      ensures MsgOk(n', p)
    {
      assert MsgOk(n, p);
    }
    forall id | id in n'.started
      ensures StartOk(n', id)
    {
      assert StartOk(n, id);
    }
  }

  /** A forwarding task queues data, or the end and then stops; jobs queue responses. */
  lemma QueueKeepsNames(n: Names, m: Msg)
    requires NamesOk(n) && !m.Started?
    requires m.Data? || m.Ended? ==> m.stream in n.forwarding
    ensures NamesOk(n.(queued := n.queued + [m], forwarding := if m.Ended? then n.forwarding - {m.stream} else n.forwarding))
  {
    var n' := n.(queued := n.queued + [m], forwarding := if m.Ended? then n.forwarding - {m.stream} else n.forwarding);
    forall p: nat | p < |n'.queued|
      ensures MsgOk(n', p)
    {
      if p < |n.queued| {
        assert MsgOk(n, p);
      }
    }
    forall id | id in n'.started
      ensures n'.started[id] < |n'.queued| && StartOk(n', id)
    {
      assert StartOk(n, id);
    }
  }

  lemma ReplyKeepsNames(n: Names, m: Msg)
    requires NamesOk(n) && n.pc.Replying? && m.Response?
    ensures NamesOk(n.(queued := n.queued + [m], pc := Draining))
  {
    QueueKeepsNames(n, m);
    MoveKeepsNames(n.(queued := n.queued + [m]), Draining, n.taken);
  }

  // ------------------------------------------------------------------------
  // All runs.
  // ------------------------------------------------------------------------

  ghost predicate Inv(s: State) {
    && s.taken <= |s.queued|
    && NamesOk(NamesOf(s))
    && S.Inv(s.streams)
  }

  lemma TasksKeepHome(s: S.State, e: S.Event)
    requires S.Enabled(s, e) && !e.Insert?
    ensures S.Step(s, e).home == s.home
  {
  }

  lemma ApplyKeepsInv(s: State, f: Frame, o: Outcome)
    requires Inv(s) && s.pc.Draining? && NoWrap(Apply(s, f, o))
    ensures Inv(Apply(s, f, o))
  {
    var n := NamesOf(s);
    match o
    case Panicked => MoveKeepsNames(n, Crashed, s.taken);
    case Replied(reply) =>
      if reply.Some? {
        MoveKeepsNames(n, Replying(|s.reqs|, reply.value), s.taken);
      }
    case Wrote(i, segment, reply) =>
      TasksKeepHome(s.streams, S.Write(i, segment));
      S.StepKeepsInv(s.streams, S.Write(i, segment));
      if reply.Some? {
        MoveKeepsNames(n, Replying(|s.reqs|, reply.value), s.taken);
      }
    case Opened(count, job) => OpenKeepsNames(n, |s.reqs|, job, count);
    case _ =>
  }

  /** The stream step an event brings along. */
  function StreamEvent(s: State, e: Event): Option<S.Event>
    requires Enabled(s, e) && !e.Dispatch?
  {
    match e
    case Register => Some(S.Insert(s.pc.streams[0]))
    case RunJob(r) =>
      if s.reqs[r].status.job.kind.Removal? then Some(S.Remove(s.reqs[r].status.job.kind.stream)) else None
    case StreamTask(t) => Some(t)
    case _ => None
  }

  lemma StreamsFollow(s: State, e: Event)
    requires Enabled(s, e) && !e.Dispatch?
    ensures StreamEvent(s, e).Some? ==> S.Enabled(s.streams, StreamEvent(s, e).value)
    ensures Step(s, e).streams ==
            if StreamEvent(s, e).Some? then S.Step(s.streams, StreamEvent(s, e).value) else s.streams
  {
  }

  lemma OpeningKeepsNames(s: State, e: Event)
    requires Inv(s) && Enabled(s, e)
    requires e.Announce? || e.Register? || e.Spawn?
    ensures NamesOk(NamesOf(Step(s, e)))
  {
    var n := NamesOf(s);
    match e
    case Announce =>
      AnnounceKeepsNames(n, Step(s, e).queued[|s.queued|]);
    case Register =>
      RegisterKeepsNames(n);
      assert S.Step(s.streams, S.Insert(s.pc.streams[0])).home.Keys == s.streams.home.Keys + {s.pc.streams[0]};
    case Spawn => MoveKeepsNames(n, Draining, s.taken);
  }

  lemma LoopKeepsNames(s: State, e: Event)
    requires Inv(s) && Enabled(s, e)
    requires e.Receive? || e.Settle? || e.SendReply? || e.WriteOut?
    ensures NamesOk(NamesOf(Step(s, e)))
  {
    var n := NamesOf(s);
    match e
    case Receive(_) => MoveKeepsNames(n, Draining, s.taken);
    case Settle => MoveKeepsNames(n, Selecting, s.taken);
    case SendReply => ReplyKeepsNames(n, Response(s.pc.req, s.pc.reply.id, s.pc.reply.code));
    case WriteOut => MoveKeepsNames(n, Selecting, s.taken + 1);
  }

  lemma StepKeepsNames(s: State, e: Event)
    requires Inv(s) && Enabled(s, e) && !e.Dispatch? && NoWrap(Step(s, e))
    ensures NamesOk(NamesOf(Step(s, e)))
  {
    var n := NamesOf(s);
    match e
    case RunJob(r) =>
      StreamsFollow(s, e);
      if StreamEvent(s, e).Some? {
        TasksKeepHome(s.streams, StreamEvent(s, e).value);
      }
    case StreamTask(t) => TasksKeepHome(s.streams, t);
    case FinishJob(r, ok) =>
      if s.reqs[r].status.job.id.Some? {
        QueueKeepsNames(n, Step(s, e).queued[|s.queued|]);
      }
    case Forward(i, segment) => QueueKeepsNames(n, Data(i, segment));
    case FinishForward(i) => QueueKeepsNames(n, Ended(i));
    case StartCall => OwnersKeepNames(n, [OfCall(|s.callers|)]);
    case TakeElsewhere => OwnersKeepNames(n, [Elsewhere]);
    case TakeStreamId => TakeKeepsNames(n, s.pc.missing - 1);
    case PeerSends(_) =>
    case RegisterCall(_) =>
    case WriteCall =>
    case Announce => OpeningKeepsNames(s, e);
    case Register => OpeningKeepsNames(s, e);
    case Spawn => OpeningKeepsNames(s, e);
    case _ => LoopKeepsNames(s, e);
  }

  lemma StepKeepsInv(s: State, e: Event)
    requires Inv(s) && Enabled(s, e) && NoWrap(Step(s, e))
    ensures Inv(Step(s, e))
  {
    if e.Dispatch? {
      ApplyKeepsInv(s, s.sent[|s.reqs|], Dispatched(s.methods, s.calls, s.sent[|s.reqs|], e.ok));
    } else {
      StepKeepsNames(s, e);
      StreamsFollow(s, e);
      if StreamEvent(s, e).Some? {
        if e.Register? {
          RegisterKeepsNames(NamesOf(s));
        }
        S.StepKeepsInv(s.streams, StreamEvent(s, e).value);
      }
    }
  }

  lemma OwnersGrow(s: State, e: Event)
    requires Enabled(s, e)
    ensures s.owners <= Step(s, e).owners
  {
  }

  lemma {:induction false} OwnersGrowAlong(s: State, es: seq<Event>)
    requires Legal(s, es)
    ensures s.owners <= Exec(s, es).owners
    decreases |es|
  {
    if es != [] {
      OwnersGrow(s, es[0]);
      OwnersGrowAlong(Step(s, es[0]), es[1..]);
    }
  }

  lemma {:induction false} RunKeepsInv(s: State, es: seq<Event>)
    requires Inv(s) && Legal(s, es) && NoWrap(Exec(s, es))
    ensures Inv(Exec(s, es))
    decreases |es|
  {
    if es != [] {
      OwnersGrowAlong(Step(s, es[0]), es[1..]);
      StepKeepsInv(s, es[0]);
      RunKeepsInv(Step(s, es[0]), es[1..]);
    }
  }

  /**
    In every run, the messages of a stream are queued in the order: announced, data, ended,
    with the announcement exactly there first and nothing after the end.
   */
  lemma StreamMessagesInOrder(methods: MethodTable, es: seq<Event>, p: nat)
    requires Legal(Start(methods), es) && NoWrap(Exec(Start(methods), es))
    requires p < |Exec(Start(methods), es).queued|
    ensures var q := Exec(Start(methods), es).queued;
            q[p].Data? || q[p].Ended? ==>
              && (exists a: nat :: a < p && q[a].Started? && q[p].stream in q[a].streams)
              && (q[p].Ended? ==> forall b :: p < b < |q| ==> !About(q[b], q[p].stream))
  {
    var s := Exec(Start(methods), es);
    RunKeepsInv(Start(methods), es);
    assert MsgOk(NamesOf(s), p);
    if s.queued[p].Data? || s.queued[p].Ended? {
      assert StartOk(NamesOf(s), s.queued[p].stream);
    }
  }
}

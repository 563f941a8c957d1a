/**
  What one connection sends: the segments that forwarding tasks read, the channel they go
  through, and the calls made on this side. What is queued and written out is compared with the
  events of the run, and not with what the service does on them.
 */
module RpcOutgoing {
  import opened Wrappers
  import opened RpcDispatch
  import opened RpcService
  import RpcNames
  import S = Streams

  // ------------------------------------------------------------------------
  // What the peer is told of a stream.
  // ------------------------------------------------------------------------

  /** The messages about stream `i`, in order. */
  function Said(queued: seq<Msg>, i: Id): seq<Msg> {
    if queued == [] then []
    else Said(queued[..|queued|-1], i) + if RpcNames.About(queued[|queued|-1], i) then [queued[|queued|-1]] else []
  }

  /** What its forwarding task read: segments, and that there are no more. */
  function ReadBy(es: seq<Event>, i: Id): seq<Msg> {
    if es == [] then []
    else
      (match es[0]
       case Forward(j, segment) => if j == i then [Data(i, segment)] else []
       case FinishForward(j) => if j == i then [Ended(i)] else []
       case _ => []) + ReadBy(es[1..], i)
  }

  lemma SaidSnoc(queued: seq<Msg>, m: Msg, i: Id)
    ensures Said(queued + [m], i) == Said(queued, i) + if RpcNames.About(m, i) then [m] else []
  {
    assert (queued + [m])[..|queued|] == queued;
  }

  /** Dispatching queues nothing and registers nothing. */
  lemma ApplyKeepsHome(s: State, f: Frame, o: Outcome)
    requires o.Wrote? ==> S.Enabled(s.streams, S.Write(o.stream, o.segment))
    ensures var s' := Apply(s, f, o);
            && s'.streams.home == s.streams.home && s'.forwarding == s.forwarding
            && s'.queued == s.queued && s'.taken == s.taken && s'.started == s.started
  {
    if o.Wrote? {
      RpcNames.TasksKeepHome(s.streams, S.Write(o.stream, o.segment));
    }
  }

  lemma DispatchKeepsHome(s: State, ok: bool)
    requires Enabled(s, Dispatch(ok))
    ensures var s' := Step(s, Dispatch(ok));
            && s'.streams.home == s.streams.home && s'.forwarding == s.forwarding
            && s'.queued == s.queued && s'.taken == s.taken && s'.started == s.started
  {
    var f := s.sent[|s.reqs|];
    ApplyKeepsHome(s, f, Dispatched(s.methods, s.calls, f, ok));
  }

  /** The message that an event queues, if it does. */
  predicate QueuesOnly(e: Event, m: Msg) {
    match e
    case Forward(i, segment) => m == Data(i, segment)
    case FinishForward(i) => m == Ended(i)
    case _ => m.Response? || m.Started?
  }

  lemma StepQueues(s: State, e: Event) returns (ms: seq<Msg>)
    requires Enabled(s, e)
    ensures Step(s, e).queued == s.queued + ms && |ms| <= 1 && forall m | m in ms :: QueuesOnly(e, m)
    ensures e.Forward? || e.FinishForward? ==> ms != []
  {
    if e.Dispatch? {
      DispatchKeepsHome(s, e.ok);
      ms := [];
    } else {
      ms := Step(s, e).queued[|s.queued|..];
    }
  }

  lemma ReadOfOne(e: Event, i: Id)
    ensures forall m | QueuesOnly(e, m) :: ReadBy([e], i) == if RpcNames.About(m, i) then [m] else []
    ensures !e.Forward? && !e.FinishForward? ==> ReadBy([e], i) == []
  {
    assert [e][1..] == [];
  }

  lemma SaysMore(queued: seq<Msg>, ms: seq<Msg>, e: Event, i: Id)
    requires |ms| <= 1 && (forall m | m in ms :: QueuesOnly(e, m)) && (e.Forward? || e.FinishForward? ==> ms != [])
    ensures Said(queued + ms, i) == Said(queued, i) + ReadBy([e], i)
  {
    ReadOfOne(e, i);
    if ms == [] {
      assert queued + ms == queued;
    } else {
      var m := ms[0];
      assert ms == [m] && QueuesOnly(e, m);
      SaidSnoc(queued, m, i);
    }
  }

  lemma StepSays(s: State, e: Event, i: Id)
    requires Enabled(s, e)
    ensures Said(Step(s, e).queued, i) == Said(s.queued, i) + ReadBy([e], i)
  {
    var ms := StepQueues(s, e);
    SaysMore(s.queued, ms, e, i);
  }

  lemma FirstRead(e: Event, es: seq<Event>, i: Id)
    ensures ReadBy([e] + es, i) == ReadBy([e], i) + ReadBy(es, i)
  {
    assert ([e] + es)[1..] == es && [e][1..] == [];
  }

  lemma {:induction false} RunSays(s: State, es: seq<Event>, i: Id)
    requires Legal(s, es)
    ensures Said(Exec(s, es).queued, i) == Said(s.queued, i) + ReadBy(es, i)
    decreases |es|
  {
    if es != [] {
      StepSays(s, es[0], i);
      RunSays(Step(s, es[0]), es[1..], i);
      FirstRead(es[0], es[1..], i);
      assert es == [es[0]] + es[1..];
    }
  }

  /** In every run, what is queued about a stream is what its forwarding task read, in order, and then its end. */
  lemma LocalDataIsSent(methods: MethodTable, es: seq<Event>, i: Id)
    requires Legal(Start(methods), es)
    ensures Said(Exec(Start(methods), es).queued, i) == ReadBy(es, i)
  {
    RunSays(Start(methods), es, i);
  }

  // ------------------------------------------------------------------------
  // The channel.
  // ------------------------------------------------------------------------

  function WriteOuts(es: seq<Event>): nat {
    if es == [] then 0 else (if es[0].WriteOut? then 1 else 0) + WriteOuts(es[1..])
  }

  predicate WithinCapacity(s: State) {
    s.taken <= |s.queued| <= s.taken + 8
  }

  lemma StepTakes(s: State, e: Event)
    requires Enabled(s, e) && WithinCapacity(s)
    ensures WithinCapacity(Step(s, e)) && Step(s, e).taken == s.taken + if e.WriteOut? then 1 else 0
  {
    if e.Dispatch? {
      DispatchKeepsHome(s, e.ok);
    }
  }

  lemma {:induction false} RunWrites(s: State, es: seq<Event>)
    requires Legal(s, es) && WithinCapacity(s)
    ensures s.queued <= Exec(s, es).queued && WithinCapacity(Exec(s, es))
    ensures Exec(s, es).taken == s.taken + WriteOuts(es)
    decreases |es|
  {
    if es != [] {
      StepTakes(s, es[0]);
      var ms := StepQueues(s, es[0]);
      RunWrites(Step(s, es[0]), es[1..]);
    }
  }

  /** At any time the messages written out are the first ones queued, and at most eight wait. */
  lemma WrittenInOrder(methods: MethodTable, es: seq<Event>, more: seq<Event>)
    requires Legal(Start(methods), es) && Legal(Exec(Start(methods), es), more)
    ensures var s := Exec(Start(methods), es);
            var s' := Exec(s, more);
            && s.taken == WriteOuts(es) && s.taken <= |s.queued| <= s.taken + 8
            && s.queued <= s'.queued && s'.taken == s.taken + WriteOuts(more)
  {
    RunWrites(Start(methods), es);
    RunWrites(Exec(Start(methods), es), more);
  }

  // ------------------------------------------------------------------------
  // Calls.
  // ------------------------------------------------------------------------

  function Calls(es: seq<Event>, written: bool): nat {
    if es == [] then 0
    else (if if written then es[0].WriteCall? else es[0].StartCall? then 1 else 0) + Calls(es[1..], written)
  }

  /** The calls from `from` on, in the order in which they were made. */
  predicate InTurn(outbox: seq<nat>, from: nat) {
    forall k :: 0 <= k < |outbox| ==> outbox[k] == from + k
  }

  /** So many calls were made and so many of them written out; the others are in the outbox. */
  predicate Outboxed(s: State, made: nat, written: nat) {
    |s.callers| == made == written + |s.outbox| && InTurn(s.outbox, written)
  }

  lemma StepCalls(s: State, e: Event, made: nat, written: nat)
    requires Enabled(s, e) && Outboxed(s, made, written)
    ensures Outboxed(Step(s, e), made + (if e.StartCall? then 1 else 0), written + if e.WriteCall? then 1 else 0)
  {
  }

  lemma {:induction false} RunCalls(s: State, es: seq<Event>, made: nat, written: nat)
    requires Legal(s, es) && Outboxed(s, made, written)
    ensures Outboxed(Exec(s, es), made + Calls(es, false), written + Calls(es, true))
    decreases |es|
  {
    if es != [] {
      StepCalls(s, es[0], made, written);
      RunCalls(Step(s, es[0]), es[1..], made + (if es[0].StartCall? then 1 else 0), written + if es[0].WriteCall? then 1 else 0);
    }
  }

  /** Each call is written out once, in the order in which calls were made. */
  lemma CallsAreWritten(methods: MethodTable, es: seq<Event>)
    requires Legal(Start(methods), es)
    ensures var s := Exec(Start(methods), es);
            && |s.callers| == Calls(es, false) && Calls(es, true) + |s.outbox| == |s.callers|
            && InTurn(s.outbox, Calls(es, true))
  {
    RunCalls(Start(methods), es, 0, 0);
  }

  predicate TakesId(e: Event) {
    e.StartCall? || e.TakeStreamId? || e.TakeElsewhere?
  }

  function Takes(es: seq<Event>): nat {
    if es == [] then 0 else (if TakesId(es[0]) then 1 else 0) + Takes(es[1..])
  }

  lemma {:induction false} RunTakes(s: State, es: seq<Event>)
    requires Legal(s, es)
    ensures |Exec(s, es).owners| == |s.owners| + Takes(es)
    decreases |es|
  {
    if es != [] {
      RunTakes(Step(s, es[0]), es[1..]);
    }
  }

  /** A call gets the next number of the process, whoever took those before. */
  lemma CallTakesNext(methods: MethodTable, es: seq<Event>)
    requires Legal(Start(methods), es)
    ensures var s := Step(Exec(Start(methods), es), StartCall);
            s.callers != [] && s.callers[|s.callers|-1].id == Takes(es) % 0x1_0000_0000
  {
    RunTakes(Start(methods), es);
  }

  // ------------------------------------------------------------------------
  // Forwarding tasks.
  // ------------------------------------------------------------------------

  /** Registered streams are forwarded until their end is queued. */
  ghost predicate Forwarded(home: set<Id>, forwarding: set<Id>, queued: seq<Msg>) {
    forall i | i in home :: i in forwarding || Ended(i) in queued
  }

  ghost predicate AllStarted(started: map<Id, nat>, queued: seq<Msg>) {
    forall p, i | 0 <= p < |queued| && queued[p].Started? && i in queued[p].streams :: i in started
  }

  ghost predicate Served(s: State) {
    Forwarded(s.streams.home.Keys, s.forwarding, s.queued) && AllStarted(s.started, s.queued)
  }

  lemma HomeStays(s: State, e: Event)
    requires Enabled(s, e) && !e.Register?
    ensures Step(s, e).streams.home == s.streams.home
  {
    if e.Dispatch? {
      DispatchKeepsHome(s, e.ok);
    } else {
      RpcNames.StreamsFollow(s, e);
      if RpcNames.StreamEvent(s, e).Some? {
        RpcNames.TasksKeepHome(s.streams, RpcNames.StreamEvent(s, e).value);
      }
    }
  }

  lemma OneMoreQueued(home: set<Id>, forwarding: set<Id>, started: map<Id, nat>, queued: seq<Msg>, m: Msg)
    requires Forwarded(home, forwarding, queued) && AllStarted(started, queued) && !m.Started?
    ensures Forwarded(home, if m.Ended? then forwarding - {m.stream} else forwarding, queued + [m])
    ensures AllStarted(started, queued + [m])
  {
  }

  lemma AnnounceKeepsServed(s: State)
    requires Served(s) && Enabled(s, Announce)
    ensures Served(Step(s, Announce))
  {
    var s' := Step(s, Announce);
    assert forall m | m in s.queued :: m in s'.queued;
  }

  lemma StepKeepsServed(s: State, e: Event)
    requires Served(s) && Enabled(s, e)
    ensures Served(Step(s, e))
  {
    if !e.Register? {
      HomeStays(s, e);
    }
    match e
    case Announce => AnnounceKeepsServed(s);
    case Dispatch(ok) => DispatchKeepsHome(s, ok);
    case SendReply => Queues(s, e);
    case FinishJob(_, _) => Queues(s, e);
    case Forward(_, _) => Queues(s, e);
    case FinishForward(_) => Queues(s, e);
    case Register =>
      assert S.Step(s.streams, S.Insert(s.pc.streams[0])).home.Keys == s.streams.home.Keys + {s.pc.streams[0]};
    case _ =>
  }

  lemma Queues(s: State, e: Event)
    requires Served(s) && Enabled(s, e) && (e.SendReply? || e.FinishJob? || e.Forward? || e.FinishForward?)
    ensures Forwarded(s.streams.home.Keys, Step(s, e).forwarding, Step(s, e).queued)
    ensures AllStarted(Step(s, e).started, Step(s, e).queued)
  {
    var s' := Step(s, e);
    if s'.queued != s.queued {
      OneMoreQueued(s.streams.home.Keys, s.forwarding, s.started, s.queued, s'.queued[|s.queued|]);
    }
  }

  lemma {:induction false} RunKeepsServed(s: State, es: seq<Event>)
    requires RpcNames.Inv(s) && Served(s) && Legal(s, es) && NoWrap(Exec(s, es))
    ensures Served(Exec(s, es))
    decreases |es|
  {
    if es != [] {
      RpcNames.OwnersGrowAlong(Step(s, es[0]), es[1..]);
      RpcNames.StepKeepsInv(s, es[0]);
      StepKeepsServed(s, es[0]);
      RunKeepsServed(Step(s, es[0]), es[1..]);
    }
  }

  /** Each announced stream is waiting to be registered, or its task is forwarding, or its end is queued: exactly one of these. */
  lemma AnnouncedStreamsAreServed(methods: MethodTable, es: seq<Event>, p: nat, i: Id)
    requires Legal(Start(methods), es) && NoWrap(Exec(Start(methods), es))
    requires var q := Exec(Start(methods), es).queued; p < |q| && q[p].Started? && i in q[p].streams
    ensures var s := Exec(Start(methods), es);
            var waits := s.pc.Registering? && i in s.pc.streams;
            && (waits <==> i !in s.streams.home)
            && (waits ==> i !in s.forwarding && Ended(i) !in s.queued)
            && (!waits ==> (i in s.forwarding <==> Ended(i) !in s.queued))
  {
    var s := Exec(Start(methods), es);
    RpcNames.RunKeepsInv(Start(methods), es);
    RunKeepsServed(Start(methods), es);
    if Ended(i) in s.queued {
      var e :| 0 <= e < |s.queued| && s.queued[e] == Ended(i);
      assert RpcNames.MsgOk(RpcNames.NamesOf(s), e);
    }
  }
}

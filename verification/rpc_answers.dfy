/**
  What requests are answered with, and what is announced for duplex calls, in all runs of
  `RpcService`: told from the method table, the message, and what its own callback came to.
 */
module RpcAnswers {
  import opened Wrappers
  import opened RpcDispatch
  import opened RpcService
  import RpcRequests

  // ------------------------------------------------------------------------
  // What happened in a run.
  // ------------------------------------------------------------------------

  /** A spawned job came to its end: the job of message `req`, whose callback succeeded or not. */
  datatype Finish = Finish(req: nat, ok: bool)

  /** What synchronous callbacks came to, message by message, and what jobs came to. */
  datatype Log = Log(dispatched: seq<bool>, finished: seq<Finish>)

  function Logged(log: Log, e: Event): Log {
    match e
    case Dispatch(ok) => log.(dispatched := log.dispatched + [ok])
    case FinishJob(r, ok) => log.(finished := log.finished + [Finish(r, ok)])
    case _ => log
  }

  function LoggedAll(log: Log, es: seq<Event>): Log
    decreases |es|
  {
    if es == [] then log else LoggedAll(Logged(log, es[0]), es[1..])
  }

  /** What happened in a run from the start. */
  function LogOf(es: seq<Event>): Log {
    LoggedAll(Log([], []), es)
  }

  // ------------------------------------------------------------------------
  // What the answer should be.
  // ------------------------------------------------------------------------

  /** The parameters are not those of the method: unreadable, or not those of a stream method. */
  predicate Mismatch(m: Method, p: Params) {
    p.Malformed? || (m.StreamDataMethod? && !p.StreamDataParams?) || (m.StreamEndedMethod? && !p.StreamEndedParams?)
  }

  predicate Known(methods: MethodTable, f: Frame) {
    f.methodName.Some? && f.methodName.value in methods
  }

  predicate Refused(methods: MethodTable, f: Frame) {
    Known(methods, f) && Mismatch(methods[f.methodName.value], f.params)
  }

  /** The callback of the method is run on the message. */
  predicate Runs(methods: MethodTable, f: Frame) {
    Known(methods, f) && !Mismatch(methods[f.methodName.value], f.params)
  }

  /**
    The code says whether the method exists, whether it got its parameters, and else whether its
    own callback succeeded: while it was dispatched, or as the job that it spawned.
   */
  predicate Tells(methods: MethodTable, f: Frame, log: Log, r: nat, code: Code)
    requires r < |log.dispatched|
  {
    && f.methodName.Some?
    && (code == NotFound <==> !Known(methods, f))
    && (code == BadParams <==> Refused(methods, f))
    && (Runs(methods, f) ==>
          match methods[f.methodName.value]
          case SyncMethod => code == Succeeded <==> log.dispatched[r]
          case AsyncMethod => Finish(r, code == Succeeded) in log.finished && Finish(r, code != Succeeded) !in log.finished
          case DuplexMethod(_) => Finish(r, code == Succeeded) in log.finished && Finish(r, code != Succeeded) !in log.finished
          case _ => code == Succeeded)
  }

  /** A duplex call that gets its streams. */
  predicate OpensStreams(methods: MethodTable, f: Frame) {
    Runs(methods, f) && methods[f.methodName.value].DuplexMethod?
  }

  /** The announcement names the request, or 0 for a notification, and as many streams as the method has. */
  predicate Announces(methods: MethodTable, f: Frame, forRequest: Id, streams: nat) {
    && OpensStreams(methods, f) && methods[f.methodName.value].streams == streams
    && forRequest == if f.id.Some? then f.id.value else 0
  }

  // ------------------------------------------------------------------------
  // The invariant.
  // ------------------------------------------------------------------------

  predicate JobRight(methods: MethodTable, f: Frame, kind: JobKind) {
    match kind
    case Reject => Refused(methods, f)
    case Callback =>
      Runs(methods, f) && (methods[f.methodName.value].AsyncMethod? || methods[f.methodName.value].DuplexMethod?)
    case Removal(_) => Runs(methods, f) && methods[f.methodName.value].StreamEndedMethod?
  }

  predicate NotFinished(log: Log, r: nat) {
    forall ok :: Finish(r, ok) !in log.finished
  }

  /** The part of the state that answers are about. */
  datatype Part = Part(methods: MethodTable, reqs: seq<Req>, pc: Pc, queued: seq<Msg>)

  function PartOf(s: State): Part {
    Part(s.methods, s.reqs, s.pc, s.queued)
  }

  ghost predicate ReqRight(v: Part, log: Log, r: nat)
    requires r < |v.reqs| == |log.dispatched|
  {
    var q := v.reqs[r];
    && (q.opens <==> OpensStreams(v.methods, q.frame))
    && match q.status
       case Opening(job) => OpensStreams(v.methods, q.frame) && job.kind.Callback? && NotFinished(log, r)
       case InFlight(job, _) => JobRight(v.methods, q.frame, job.kind) && NotFinished(log, r)
       case Waiting => NotFinished(log, r)
       case Answered(p) =>
         p < |v.queued| && v.queued[p].Response? && Tells(v.methods, q.frame, log, r, v.queued[p].code)
       case Quiet => true
  }

  ghost predicate PcRight(v: Part, log: Log)
    requires |v.reqs| == |log.dispatched|
  {
    match v.pc
    case Replying(r, reply) => r < |v.reqs| && v.reqs[r].status.Waiting? && Tells(v.methods, v.reqs[r].frame, log, r, reply.code)
    case Announcing(r, job, streams, missing) =>
      r < |v.reqs| && OpensStreams(v.methods, v.reqs[r].frame) && job.kind.Callback? && job.id == v.reqs[r].frame.id &&
      v.methods[v.reqs[r].frame.methodName.value].streams == |streams| + missing
    case Registering(r, job, _) => r < |v.reqs| && OpensStreams(v.methods, v.reqs[r].frame) && job.kind.Callback?
    case _ => true
  }

  ghost predicate StartedRight(v: Part, p: nat)
    requires p < |v.queued|
  {
    v.queued[p].Started? ==>
      v.queued[p].req < |v.reqs| &&
      Announces(v.methods, v.reqs[v.queued[p].req].frame, v.queued[p].forRequest, |v.queued[p].streams|)
  }

  ghost predicate Right(v: Part, log: Log) {
    && |v.reqs| == |log.dispatched|
    && (forall f | f in log.finished :: f.req < |v.reqs|)
    && (forall r: nat | r < |v.reqs| :: ReqRight(v, log, r))
    && PcRight(v, log)
    && (forall p: nat | p < |v.queued| :: StartedRight(v, p))
  }

  // ------------------------------------------------------------------------
  // Each kind of change keeps it.
  // ------------------------------------------------------------------------

  /** Nothing about message `r` changes. */
  predicate Untouched(v: Part, log: Log, v': Part, log': Log, r: nat) {
    && v'.methods == v.methods && v.queued <= v'.queued
    && r < |v.reqs| <= |v'.reqs| && v'.reqs[r] == v.reqs[r]
    && |v.reqs| == |log.dispatched| && |v'.reqs| == |log'.dispatched| && log.dispatched <= log'.dispatched
    && forall ok :: Finish(r, ok) in log'.finished <==> Finish(r, ok) in log.finished
  }

  lemma UntouchedStays(v: Part, log: Log, v': Part, log': Log, r: nat)
    requires Untouched(v, log, v', log', r) && ReqRight(v, log, r)
    ensures ReqRight(v', log', r)
  {
  }

  /** Messages keep their frames, and whatever is queued is no announcement, or a right one. */
  lemma AnnouncementsStay(v: Part, v': Part)
    requires forall p: nat | p < |v.queued| :: StartedRight(v, p)
    requires v'.methods == v.methods && v.queued <= v'.queued && |v.reqs| <= |v'.reqs|
    requires forall r :: 0 <= r < |v.reqs| ==> v'.reqs[r].frame == v.reqs[r].frame
    requires forall p: nat | |v.queued| <= p < |v'.queued| :: StartedRight(v', p)
    ensures forall p: nat | p < |v'.queued| :: StartedRight(v', p)
  {
    forall p: nat | p < |v'.queued|
      ensures StartedRight(v', p)
    {
      if p < |v.queued| {
        assert StartedRight(v, p);
      }
    }
  }

  /** The loop moves on, and what is queued is no answer. */
  lemma MoveKeepsRight(v: Part, log: Log, pc: Pc, more: seq<Msg>)
    requires Right(v, log) && PcRight(v.(pc := pc), log) && (forall m | m in more :: !m.Started?)
    ensures Right(v.(pc := pc, queued := v.queued + more), log)
  {
    var v' := v.(pc := pc, queued := v.queued + more);
    forall r: nat | r < |v.reqs|
      ensures ReqRight(v', log, r)
    {
      UntouchedStays(v, log, v', log, r);
    }
    AnnouncementsStay(v, v');
  }

  /** A message gets a new status, and what is queued for it is no announcement. */
  lemma StatusKeepsRight(v: Part, log: Log, v': Part, log': Log, a: nat)
    requires Right(v, log) && a < |v.reqs| == |v'.reqs| && v'.methods == v.methods
    requires v'.reqs == v.reqs[a := v'.reqs[a]] && v'.reqs[a].frame == v.reqs[a].frame
    requires v.queued <= v'.queued && forall p: nat | |v.queued| <= p < |v'.queued| :: StartedRight(v', p)
    requires log'.dispatched == log.dispatched
    requires log'.finished == log.finished || exists ok :: log'.finished == log.finished + [Finish(a, ok)]
    requires ReqRight(v', log', a) && PcRight(v', log')
    ensures Right(v', log')
  {
    forall r: nat | r < |v'.reqs|
      ensures ReqRight(v', log', r)
    {
      if r != a {
        UntouchedStays(v, log, v', log', r);
      }
    }
    AnnouncementsStay(v, v');
  }

  /** A message is dispatched. */
  lemma DispatchKeepsRight(v: Part, log: Log, v': Part, ok: bool)
    requires Right(v, log) && v'.methods == v.methods && v'.queued == v.queued
    requires |v'.reqs| == |v.reqs| + 1 && v'.reqs[..|v.reqs|] == v.reqs
    requires var log' := Logged(log, Dispatch(ok)); ReqRight(v', log', |v.reqs|) && PcRight(v', log')
    ensures Right(v', Logged(log, Dispatch(ok)))
  {
    var log' := Logged(log, Dispatch(ok));
    forall r: nat | r < |v'.reqs|
      ensures ReqRight(v', log', r)
    {
      if r < |v.reqs| {
        assert v'.reqs[..|v.reqs|][r] == v'.reqs[r];
        UntouchedStays(v, log, v', log', r);
      }
    }
    forall r | 0 <= r < |v.reqs|
      ensures v'.reqs[r].frame == v.reqs[r].frame
    {
      assert v'.reqs[..|v.reqs|][r] == v'.reqs[r];
    }
    AnnouncementsStay(v, v');
  }

  /** What dispatching comes to, in terms of the message and the method table. */
  lemma OutcomeIsRight(methods: MethodTable, calls: map<Id, nat>, f: Frame, ok: bool, log: Log)
    requires |log.dispatched| > 0 && log.dispatched[|log.dispatched|-1] == ok
    ensures var r, o := |log.dispatched| - 1, Dispatched(methods, calls, f, ok);
            && (o.Replied? && o.reply.Some? ==> Tells(methods, f, log, r, o.reply.value.code))
            && (o.Wrote? && o.reply.Some? ==> Tells(methods, f, log, r, o.reply.value.code))
            && (o.Spawned? ==> JobRight(methods, f, o.job.kind))
            && (o.Opened? ==> o.job.kind.Callback? && o.job.id == f.id && o.streams == methods[f.methodName.value].streams)
            && (o.Opened? <==> OpensStreams(methods, f))
  {
  }

  lemma AppliedIsRight(s: State, log: Log, ok: bool)
    requires Right(PartOf(s), log) && Enabled(s, Dispatch(ok))
    ensures Right(PartOf(DoDispatch(s, ok)), Logged(log, Dispatch(ok)))
  {
    var f, log' := s.sent[|s.reqs|], Logged(log, Dispatch(ok));
    var o := Dispatched(s.methods, s.calls, f, ok);
    var v' := PartOf(Apply(s, f, o));
    OutcomeIsRight(s.methods, s.calls, f, ok, log');
    RpcRequests.DispatchIsRecorded(s, f, o);
    RpcRequests.DispatchShape(s, f, o);
    assert NotFinished(log', |s.reqs|) by {
      assert forall b :: Finish(|s.reqs|, b) in log.finished ==> |s.reqs| < |s.reqs|;
    }
    DispatchKeepsRight(PartOf(s), log, v', ok);
  }

  /** What a job answers when it ends. */
  lemma FinishTells(methods: MethodTable, f: Frame, kind: JobKind, log: Log, r: nat, ok: bool, code: Code)
    requires JobRight(methods, f, kind) && NotFinished(log, r) && r < |log.dispatched|
    requires code == match kind
                     case Reject => BadParams
                     case Callback => if ok then Succeeded else Failed
                     case Removal(_) => Succeeded
    ensures Tells(methods, f, Logged(log, FinishJob(r, ok)), r, code)
  {
    var log' := Logged(log, FinishJob(r, ok));
    assert log'.finished[|log.finished|] == Finish(r, ok);
  }

  lemma PcStaysRight(v: Part, log: Log, v': Part, r: nat, ok: bool)
    requires |v.reqs| == |log.dispatched| == |v'.reqs| && PcRight(v, log) && v'.methods == v.methods && v'.pc == v.pc
    requires r < |v.reqs| && v.reqs[r].status.InFlight?
    requires v'.reqs == v.reqs[r := v'.reqs[r]] && v'.reqs[r].frame == v.reqs[r].frame
    ensures PcRight(v', Logged(log, FinishJob(r, ok)))
  {
  }

  lemma FinishIsRight(s: State, log: Log, r: nat, ok: bool)
    requires Right(PartOf(s), log) && Enabled(s, FinishJob(r, ok))
    ensures Right(PartOf(DoFinishJob(s, r, ok)), Logged(log, FinishJob(r, ok)))
  {
    var v, v', log' := PartOf(s), PartOf(DoFinishJob(s, r, ok)), Logged(log, FinishJob(r, ok));
    var job := s.reqs[r].status.job;
    assert ReqRight(v, log, r);
    PcStaysRight(v, log, v', r, ok);
    if job.id.Some? {
      FinishTells(s.methods, s.reqs[r].frame, job.kind, log, r, ok, v'.queued[|s.queued|].code);
    }
    StatusKeepsRight(v, log, v', log', r);
  }

  lemma JobMovesRight(v: Part, log: Log, a: nat, status: Status, pc: Pc)
    requires Right(v, log) && a < |v.reqs|
    requires
      || (v.pc.Registering? && v.pc.req == a && v.reqs[a].status.Opening? && status == InFlight(v.pc.job, false) && pc.Draining?)
      || (v.reqs[a].status.InFlight? && status == InFlight(v.reqs[a].status.job, true) && pc == v.pc)
    ensures Right(v.(reqs := v.reqs[a := v.reqs[a].(status := status)], pc := pc), log)
  {
    var v' := v.(reqs := v.reqs[a := v.reqs[a].(status := status)], pc := pc);
    assert ReqRight(v, log, a);
    StatusKeepsRight(v, log, v', log, a);
  }

  lemma ReplyIsRight(s: State, log: Log)
    requires Right(PartOf(s), log) && Enabled(s, SendReply)
    ensures Right(PartOf(Step(s, SendReply)), log)
  {
    assert ReqRight(PartOf(s), log, s.pc.req);
    StatusKeepsRight(PartOf(s), log, PartOf(Step(s, SendReply)), log, s.pc.req);
  }

  lemma AnnounceIsRight(s: State, log: Log)
    requires Right(PartOf(s), log) && Enabled(s, Announce)
    ensures Right(PartOf(DoAnnounce(s)), log)
  {
    assert ReqRight(PartOf(s), log, s.pc.req);
    StatusKeepsRight(PartOf(s), log, PartOf(DoAnnounce(s)), log, s.pc.req);
  }

  /** Any other step changes neither messages nor what is queued. */
  lemma OtherStep(s: State, log: Log, e: Event)
    requires |s.reqs| == |log.dispatched| && PcRight(PartOf(s), log) && Enabled(s, e)
    requires !e.Dispatch? && !e.FinishJob? && !e.SendReply? && !e.Announce? && !e.Spawn? && !e.RunJob?
    requires !e.Forward? && !e.FinishForward?
    ensures PartOf(Step(s, e)) == PartOf(s).(pc := Step(s, e).pc)
    ensures PcRight(PartOf(Step(s, e)), log) && Logged(log, e) == log
  {
  }

  lemma OtherStepKeepsRight(s: State, log: Log, e: Event)
    requires Right(PartOf(s), log) && Enabled(s, e)
    requires !e.Dispatch? && !e.FinishJob? && !e.SendReply? && !e.Announce? && !e.Spawn? && !e.RunJob?
    ensures Right(PartOf(Step(s, e)), Logged(log, e))
  {
    var v := PartOf(s);
    if e.Forward? {
      MoveKeepsRight(v, log, s.pc, [Data(e.stream, e.segment)]);
    } else if e.FinishForward? {
      MoveKeepsRight(v, log, s.pc, [Ended(e.stream)]);
    } else {
      OtherStep(s, log, e);
      MoveKeepsRight(v, log, Step(s, e).pc, []);
      assert s.queued + [] == s.queued;
    }
  }

  lemma JobStepKeepsRight(s: State, log: Log, e: Event)
    requires Right(PartOf(s), log) && RpcRequests.PcOk(RpcRequests.PartOf(s)) && Enabled(s, e) && (e.Spawn? || e.RunJob?)
    ensures Right(PartOf(Step(s, e)), Logged(log, e))
  {
    if e.Spawn? {
      JobMovesRight(PartOf(s), log, s.pc.req, InFlight(s.pc.job, false), Draining);
    } else {
      JobMovesRight(PartOf(s), log, e.req, InFlight(s.reqs[e.req].status.job, true), s.pc);
    }
  }

  lemma StepKeepsRight(s: State, log: Log, e: Event)
    requires RpcRequests.ReqsOk(s) && Right(PartOf(s), log) && Enabled(s, e)
    ensures Right(PartOf(Step(s, e)), Logged(log, e))
  {
    match e
    case Dispatch(ok) => AppliedIsRight(s, log, ok);
    case FinishJob(r, ok) => FinishIsRight(s, log, r, ok);
    case SendReply => ReplyIsRight(s, log);
    case Announce => AnnounceIsRight(s, log);
    case Spawn => JobStepKeepsRight(s, log, e);
    case RunJob(_) => JobStepKeepsRight(s, log, e);
    case _ => OtherStepKeepsRight(s, log, e);
  }

  lemma {:induction false} RunKeepsRight(s: State, log: Log, es: seq<Event>)
    requires RpcRequests.ReqsOk(s) && Right(PartOf(s), log) && Legal(s, es)
    ensures RpcRequests.ReqsOk(Exec(s, es)) && Right(PartOf(Exec(s, es)), LoggedAll(log, es))
    decreases |es|
  {
    if es != [] {
      StepKeepsRight(s, log, es[0]);
      RpcRequests.StepKeepsReqs(s, es[0]);
      RunKeepsRight(Step(s, es[0]), Logged(log, es[0]), es[1..]);
    }
  }

  // ------------------------------------------------------------------------
  // What it means.
  // ------------------------------------------------------------------------

  lemma MethodsStay(s: State, e: Event)
    requires Enabled(s, e)
    ensures Step(s, e).methods == s.methods
  {
    if e.Dispatch? {
      RpcRequests.DispatchShape(s, s.sent[|s.reqs|], Dispatched(s.methods, s.calls, s.sent[|s.reqs|], e.ok));
    }
  }

  lemma {:induction false} MethodsStayAlong(s: State, es: seq<Event>)
    requires Legal(s, es)
    ensures Exec(s, es).methods == s.methods
    decreases |es|
  {
    if es != [] {
      MethodsStay(s, es[0]);
      MethodsStayAlong(Step(s, es[0]), es[1..]);
    }
  }

  /**
    In every run, each response that is queued says about the message it answers whether its method
    exists, whether it got its parameters, and else what its own callback came to.
   */
  lemma ResponsesTellTheTruth(methods: MethodTable, es: seq<Event>, p: nat)
    requires Legal(Start(methods), es)
    requires p < |Exec(Start(methods), es).queued| && Exec(Start(methods), es).queued[p].Response?
    ensures var s, log := Exec(Start(methods), es), LogOf(es);
            var m := s.queued[p];
            && m.req < |s.reqs| == |log.dispatched|
            && s.reqs[m.req].frame.id == Some(m.id)
            && Tells(methods, s.reqs[m.req].frame, log, m.req, m.code)
  {
    var s, log := Exec(Start(methods), es), LogOf(es);
    RunKeepsRight(Start(methods), Log([], []), es);
    MethodsStayAlong(Start(methods), es);
    assert RpcRequests.ResponseOk(RpcRequests.PartOf(s), p);
    assert RpcRequests.ReqOk(RpcRequests.PartOf(s), s.queued[p].req);
    assert ReqRight(PartOf(s), log, s.queued[p].req);
  }

  /**
    In every run, each `streams_started` names the request it is for, or 0 for a notification, and
    as many streams as the method of that request has; and a message opens streams exactly when its
    method is a duplex one that got its parameters.
   */
  lemma StreamsAreAnnounced(methods: MethodTable, es: seq<Event>, p: nat, r: nat)
    requires Legal(Start(methods), es)
    ensures var s := Exec(Start(methods), es);
            && (p < |s.queued| && s.queued[p].Started? ==>
                  s.queued[p].req < |s.reqs| &&
                  Announces(methods, s.reqs[s.queued[p].req].frame, s.queued[p].forRequest, |s.queued[p].streams|))
            && (r < |s.reqs| ==> (s.reqs[r].opens <==> OpensStreams(methods, s.reqs[r].frame)))
  {
    var s, log := Exec(Start(methods), es), LogOf(es);
    RunKeepsRight(Start(methods), Log([], []), es);
    MethodsStayAlong(Start(methods), es);
    if p < |s.queued| {
      assert StartedRight(PartOf(s), p);
    }
    if r < |s.reqs| {
      assert ReqRight(PartOf(s), log, r);
    }
  }
}

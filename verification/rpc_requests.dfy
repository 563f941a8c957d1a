/**
  Every request is answered exactly once, and nothing else is: an invariant of all runs of
  `RpcService`, for requests that are answered by the loop, by a spawned job, or by the job
  of a duplex call after its streams were announced.
 */
module RpcRequests {
  import opened Wrappers
  import opened RpcDispatch
  import opened RpcService

  /** The part of the state that answering is about. */
  datatype Part = Part(reqs: seq<Req>, pc: Pc, queued: seq<Msg>)

  function PartOf(s: State): Part {
    Part(s.reqs, s.pc, s.queued)
  }

  predicate IsRequest(f: Frame) {
    f.methodName.Some? && f.id.Some?
  }

  /** The loop owes what it says it owes. */
  ghost predicate PcOk(v: Part) {
    match v.pc
    case Replying(r, reply) =>
      r < |v.reqs| && v.reqs[r].status.Waiting? && v.reqs[r].frame.id == Some(reply.id)
    case Announcing(r, job, _, _) =>
      r < |v.reqs| && v.reqs[r].status == Opening(job) && v.reqs[r].announced.None?
    case Registering(r, job, _) =>
      r < |v.reqs| && v.reqs[r].status == Opening(job) && v.reqs[r].announced.Some?
    case _ => true
  }

  /** Where the answer to message `r` is, or who still owes it. */
  ghost predicate ReqOk(v: Part, r: nat)
    requires r < |v.reqs|
  {
    var q := v.reqs[r];
    && (match q.status
        case Quiet => !IsRequest(q.frame)
        case Waiting => v.pc.Replying? && v.pc.req == r && IsRequest(q.frame)
        case Opening(job) =>
          && (v.pc.Announcing? || v.pc.Registering?) && v.pc.req == r
          && job.id == q.frame.id && q.frame.methodName.Some?
        case InFlight(job, _) => job.id == q.frame.id && q.frame.methodName.Some?
        case Answered(p) =>
          && p < |v.queued| && v.queued[p].Response? && v.queued[p].req == r
          && IsRequest(q.frame) && q.frame.id == Some(v.queued[p].id))
    && AnnouncedOk(v, r)
  }

  /** `streams_started` of a duplex call precedes its answer. */
  ghost predicate AnnouncedOk(v: Part, r: nat)
    requires r < |v.reqs|
  {
    var q := v.reqs[r];
    && (q.announced.Some? ==>
          q.announced.value < |v.queued| && v.queued[q.announced.value].Started? && v.queued[q.announced.value].req == r)
    && (q.opens && !q.status.Opening? ==> q.announced.Some?)
    && (q.opens && q.status.Answered? ==> q.announced.Some? && q.announced.value < q.status.pos)
  }

  /** Each response in the channel is the one its request is marked as answered by. */
  ghost predicate ResponseOk(v: Part, p: nat)
    requires p < |v.queued|
  {
    v.queued[p].Response? ==>
      v.queued[p].req < |v.reqs| && v.reqs[v.queued[p].req].status == Answered(p)
  }

  ghost predicate PartOk(v: Part) {
    && PcOk(v)
    && (forall r: nat | r < |v.reqs| :: ReqOk(v, r))
    && (forall p: nat | p < |v.queued| :: ResponseOk(v, p))
  }

  ghost predicate CursorsOk(s: State) {
    && s.taken <= |s.queued| <= s.taken + CAPACITY
    && |s.reqs| <= s.received <= |s.sent|
    && (s.pc.Selecting? ==> |s.reqs| == s.received)
  }

  /** The messages dispatched are those sent, in order. */
  ghost predicate FramesOk(sent: seq<Frame>, reqs: seq<Req>) {
    |reqs| <= |sent| && forall r :: 0 <= r < |reqs| ==> reqs[r].frame == sent[r]
  }

  ghost predicate ReqsOk(s: State) {
    CursorsOk(s) && FramesOk(s.sent, s.reqs) && PartOk(PartOf(s))
  }

  ghost predicate AtRest(pc: Pc) {
    pc.Selecting? || pc.Draining? || pc.Crashed?
  }

  lemma RestKeepsPart(v: Part, pc: Pc)
    requires PartOk(v) && AtRest(v.pc) && AtRest(pc)
    ensures PartOk(v.(pc := pc))
  {
    var v' := v.(pc := pc);
    forall r: nat | r < |v.reqs|
      ensures ReqOk(v', r)
    {
      assert ReqOk(v, r);
    }
    forall p: nat | p < |v.queued|
      ensures ResponseOk(v', p)
    {
      assert ResponseOk(v, p);
    }
  }

  lemma RegisteringKeepsPart(v: Part, streams: seq<Id>)
    requires PartOk(v) && v.pc.Registering?
    ensures PartOk(v.(pc := Registering(v.pc.req, v.pc.job, streams)))
  {
    var v' := v.(pc := Registering(v.pc.req, v.pc.job, streams));
    forall r: nat | r < |v.reqs|
      ensures ReqOk(v', r)
    {
      assert ReqOk(v, r);
    }
    forall p: nat | p < |v.queued|
      ensures ResponseOk(v', p)
    {
      assert ResponseOk(v, p);
    }
  }

  lemma NamingKeepsPart(v: Part, streams: seq<Id>, missing: nat)
    requires PartOk(v) && v.pc.Announcing?
    ensures PartOk(v.(pc := Announcing(v.pc.req, v.pc.job, streams, missing)))
  {
    var v' := v.(pc := Announcing(v.pc.req, v.pc.job, streams, missing));
    forall r: nat | r < |v.reqs|
      ensures ReqOk(v', r)
    {
      assert ReqOk(v, r);
    }
    forall p: nat | p < |v.queued|
      ensures ResponseOk(v', p)
    {
      assert ResponseOk(v, p);
    }
  }

  /** A dispatched message is answered by the loop, by a job, or not at all. */
  lemma NewReqKeepsPart(v: Part, q: Req, pc: Pc)
    requires PartOk(v) && v.pc.Draining? && q.announced.None?
    requires match q.status
             case Quiet => AtRest(pc) && !q.opens && !IsRequest(q.frame)
             case Waiting =>
               && pc.Replying? && pc.req == |v.reqs| && !q.opens
               && IsRequest(q.frame) && q.frame.id == Some(pc.reply.id)
             case Opening(job) =>
               && pc.Announcing? && pc.req == |v.reqs| && pc.job == job
               && job.id == q.frame.id && q.frame.methodName.Some?
             case InFlight(job, _) => AtRest(pc) && !q.opens && job.id == q.frame.id && q.frame.methodName.Some?
             case Answered(_) => false
    ensures PartOk(Part(v.reqs + [q], pc, v.queued))
  {
    var v' := Part(v.reqs + [q], pc, v.queued);
    forall r: nat | r < |v'.reqs|
      ensures ReqOk(v', r)
    {
      if r < |v.reqs| {
        assert ReqOk(v, r);
      }
    }
    forall p: nat | p < |v.queued|
      ensures ResponseOk(v', p)
    {
      assert ResponseOk(v, p);
    }
  }

  /** Queueing anything but a response concerns no request, except for the one it announces streams of. */
  lemma OtherMsgKeepsPart(v: Part, m: Msg)
    requires PartOk(v) && !m.Response?
    ensures PartOk(v.(queued := v.queued + [m]))
  {
    var v' := v.(queued := v.queued + [m]);
    forall r: nat | r < |v.reqs|
      ensures ReqOk(v', r)
    {
      assert ReqOk(v, r);
    }
    forall p: nat | p < |v'.queued|
      ensures ResponseOk(v', p)
    {
      if p < |v.queued| {
        assert ResponseOk(v, p);
      }
    }
  }

  lemma AnnounceKeepsPart(v: Part, forRequest: Id)
    requires PartOk(v) && v.pc.Announcing?
    ensures v.pc.req < |v.reqs|
    ensures PartOk(Part(v.reqs[v.pc.req := v.reqs[v.pc.req].(announced := Some(|v.queued|))],
                        Registering(v.pc.req, v.pc.job, v.pc.streams),
                        v.queued + [Started(v.pc.req, forRequest, v.pc.streams)]))
  {
    var a := v.pc.req;
    var v' := Part(v.reqs[a := v.reqs[a].(announced := Some(|v.queued|))],
                   Registering(a, v.pc.job, v.pc.streams),
                   v.queued + [Started(a, forRequest, v.pc.streams)]);
    forall r: nat | r < |v'.reqs|
      ensures ReqOk(v', r)
    {
      assert ReqOk(v, r);
    }
    forall p: nat | p < |v'.queued|
      ensures ResponseOk(v', p)
    {
      if p < |v.queued| {
        assert ResponseOk(v, p);
      }
    }
  }

  /** Whoever owes the answer to `a` queues it. */
  lemma AnswerKeepsPart(v: Part, a: nat, id: Id, code: Code, pc: Pc)
    requires PartOk(v) && a < |v.reqs| && v.reqs[a].frame.id == Some(id)
    requires (v.reqs[a].status.Waiting? && pc.Draining?) || (v.reqs[a].status.InFlight? && pc == v.pc)
    ensures PartOk(Part(v.reqs[a := v.reqs[a].(status := Answered(|v.queued|))], pc,
                        v.queued + [Response(a, id, code)]))
  {
    var v' := Part(v.reqs[a := v.reqs[a].(status := Answered(|v.queued|))], pc, v.queued + [Response(a, id, code)]);
    assert ReqOk(v, a);
    forall r: nat | r < |v'.reqs|
      ensures ReqOk(v', r)
    {
      assert ReqOk(v, r);
    }
    forall p: nat | p < |v'.queued|
      ensures ResponseOk(v', p)
    {
      if p < |v.queued| {
        assert ResponseOk(v, p);
      }
    }
  }

  /** A job is spawned, runs, or ends without an answer. */
  lemma JobKeepsPart(v: Part, a: nat, status: Status, pc: Pc)
    requires PartOk(v) && a < |v.reqs|
    requires
      || (v.pc.Registering? && v.pc.req == a && status == InFlight(v.pc.job, false) && pc.Draining?)
      || (v.reqs[a].status.InFlight? && status == InFlight(v.reqs[a].status.job, true) && pc == v.pc)
      || (v.reqs[a].status.InFlight? && status == Quiet && v.reqs[a].frame.id.None? && pc == v.pc)
    ensures PartOk(Part(v.reqs[a := v.reqs[a].(status := status)], pc, v.queued))
  {
    var v' := Part(v.reqs[a := v.reqs[a].(status := status)], pc, v.queued);
    assert ReqOk(v, a);
    forall r: nat | r < |v'.reqs|
      ensures ReqOk(v', r)
    {
      assert ReqOk(v, r);
    }
    forall p: nat | p < |v'.queued|
      ensures ResponseOk(v', p)
    {
      assert ResponseOk(v, p);
    }
  }

  /** The outcome answers a request, or leaves its answer to a job that carries its id. */
  predicate AnswerFits(f: Frame, o: Outcome) {
    match o
    case Replied(reply) => if reply.Some? then IsRequest(f) && f.id == Some(reply.value.id) else !IsRequest(f)
    case Wrote(_, _, reply) => if reply.Some? then IsRequest(f) && f.id == Some(reply.value.id) else !IsRequest(f)
    case Spawned(job) => job.id == f.id && f.methodName.Some?
    case Opened(_, job) => job.id == f.id && f.methodName.Some?
    case _ => !IsRequest(f)
  }

  lemma OutcomeFits(methods: MethodTable, calls: map<Id, nat>, f: Frame, ok: bool)
    ensures AnswerFits(f, Dispatched(methods, calls, f, ok))
  {
    DispatchAnswersOnce(methods, calls, f, ok);
  }

  lemma ApplyKeepsPart(s: State, f: Frame, o: Outcome)
    requires PartOk(PartOf(s)) && s.pc.Draining? && AnswerFits(f, o)
    ensures PartOk(PartOf(Apply(s, f, o)))
  {
    var v, v' := PartOf(s), PartOf(Apply(s, f, o));
    NewReqKeepsPart(v, v'.reqs[|s.reqs|], v'.pc);
    assert v' == Part(v.reqs + [v'.reqs[|s.reqs|]], v'.pc, v.queued);
  }

  lemma DispatchKeepsPart(s: State, ok: bool)
    requires ReqsOk(s) && Enabled(s, Dispatch(ok))
    ensures PartOk(PartOf(DoDispatch(s, ok)))
  {
    var f := s.sent[|s.reqs|];
    OutcomeFits(s.methods, s.calls, f, ok);
    ApplyKeepsPart(s, f, Dispatched(s.methods, s.calls, f, ok));
  }

  lemma StepKeepsPart(s: State, e: Event)
    requires ReqsOk(s) && Enabled(s, e)
    ensures PartOk(PartOf(Step(s, e)))
  {
    var v := PartOf(s);
    match e
    case Dispatch(ok) => DispatchKeepsPart(s, ok);
    case Receive(_) => RestKeepsPart(v, Draining);
    case Settle => RestKeepsPart(v, Selecting);
    case SendReply => AnswerKeepsPart(v, s.pc.req, s.pc.reply.id, s.pc.reply.code, Draining);
    case TakeStreamId => NamingKeepsPart(v, Step(s, e).pc.streams, s.pc.missing - 1);
    case Announce => AnnounceKeepsPart(v, if s.pc.job.id.Some? then s.pc.job.id.value else 0);
    case Register => RegisteringKeepsPart(v, s.pc.streams[1..]);
    case Spawn => JobKeepsPart(v, s.pc.req, InFlight(s.pc.job, false), Draining);
    case RunJob(r) => JobKeepsPart(v, r, InFlight(s.reqs[r].status.job, true), s.pc);
    case FinishJob(r, ok) =>
      assert ReqOk(v, r);
      var job := s.reqs[r].status.job;
      if job.id.Some? {
        AnswerKeepsPart(v, r, job.id.value, Step(s, e).queued[|s.queued|].code, s.pc);
      } else {
        JobKeepsPart(v, r, Quiet, s.pc);
      }
    case Forward(i, segment) => OtherMsgKeepsPart(v, Data(i, segment));
    case FinishForward(i) => OtherMsgKeepsPart(v, Ended(i));
    case _ =>
  }

  /** A dispatch is recorded, and leaves what was read, queued and written out alone. */
  lemma DispatchShape(s: State, f: Frame, o: Outcome)
    ensures var s' := Apply(s, f, o);
            && s'.sent == s.sent && s'.received == s.received && s'.queued == s.queued && s'.taken == s.taken
            && s'.started == s.started && s'.forwarding == s.forwarding && s'.methods == s.methods
            && (s.pc.Draining? ==> !s'.pc.Selecting? && !s'.pc.Registering?)
  {
  }

  lemma DispatchIsRecorded(s: State, f: Frame, o: Outcome)
    ensures var s' := Apply(s, f, o);
            |s'.reqs| == |s.reqs| + 1 && s'.reqs[..|s.reqs|] == s.reqs && s'.reqs[|s.reqs|].frame == f
  {
  }

  lemma RecordKeepsFrames(sent: seq<Frame>, reqs: seq<Req>, more: seq<Req>)
    requires FramesOk(sent, reqs) && |reqs| < |sent| && |more| == |reqs| + 1
    requires more[..|reqs|] == reqs && more[|reqs|].frame == sent[|reqs|]
    ensures FramesOk(sent, more)
  {
    forall r | 0 <= r < |reqs|
      ensures more[r].frame == sent[r]
    {
      assert more[..|reqs|][r] == more[r];
    }
  }

  lemma FramesStay(s: State, e: Event)
    requires Enabled(s, e) && !e.Dispatch?
    ensures var s' := Step(s, e);
            s.sent <= s'.sent && |s'.reqs| == |s.reqs| &&
            forall r :: 0 <= r < |s.reqs| ==> s'.reqs[r].frame == s.reqs[r].frame
  {
  }

  lemma StepKeepsFrames(s: State, e: Event)
    requires FramesOk(s.sent, s.reqs) && Enabled(s, e)
    ensures FramesOk(Step(s, e).sent, Step(s, e).reqs)
  {
    if e.Dispatch? {
      var f := s.sent[|s.reqs|];
      var o := Dispatched(s.methods, s.calls, f, e.ok);
      DispatchShape(s, f, o);
      DispatchIsRecorded(s, f, o);
      RecordKeepsFrames(s.sent, s.reqs, Apply(s, f, o).reqs);
    } else {
      FramesStay(s, e);
    }
  }

  lemma StepKeepsCursors(s: State, e: Event)
    requires CursorsOk(s) && Enabled(s, e)
    ensures CursorsOk(Step(s, e))
  {
    if e.Dispatch? {
      var o := Dispatched(s.methods, s.calls, s.sent[|s.reqs|], e.ok);
      DispatchShape(s, s.sent[|s.reqs|], o);
      DispatchIsRecorded(s, s.sent[|s.reqs|], o);
    }
  }

  lemma StepKeepsReqs(s: State, e: Event)
    requires ReqsOk(s) && Enabled(s, e)
    ensures ReqsOk(Step(s, e))
  {
    StepKeepsPart(s, e);
    StepKeepsFrames(s, e);
    StepKeepsCursors(s, e);
  }

  lemma {:induction false} RunKeepsReqs(s: State, es: seq<Event>)
    requires ReqsOk(s) && Legal(s, es)
    ensures ReqsOk(Exec(s, es))
    decreases |es|
  {
    if es != [] {
      StepKeepsReqs(s, es[0]);
      RunKeepsReqs(Step(s, es[0]), es[1..]);
    }
  }

  // ------------------------------------------------------------------------
  // What the invariant means.
  // ------------------------------------------------------------------------

  /** Somebody still owes the answer to message `r`. */
  predicate Owed(s: State, r: nat)
    requires r < |s.reqs|
  {
    s.reqs[r].status.Waiting? || s.reqs[r].status.Opening? || s.reqs[r].status.InFlight?
  }

  /**
    In every run, a dispatched request is either still owed an answer and has none, or has
    exactly one, which carries its own id; a notification or a response never has any.
   */
  lemma OneAnswerPerRequest(methods: MethodTable, es: seq<Event>, r: nat)
    requires Legal(Start(methods), es) && r < |Exec(Start(methods), es).reqs|
    ensures var s := Exec(Start(methods), es);
            var answers := set p: nat | p < |s.queued| && s.queued[p].Response? && s.queued[p].req == r;
            if IsRequest(s.reqs[r].frame) && !Owed(s, r) then
              exists p :: answers == {p} && s.queued[p].id == s.reqs[r].frame.id.value
            else
              answers == {}
  {
    var s := Exec(Start(methods), es);
    RunKeepsReqs(Start(methods), es);
    var answers := set p: nat | p < |s.queued| && s.queued[p].Response? && s.queued[p].req == r;
    assert ReqOk(PartOf(s), r);
    forall p: nat | p in answers
      ensures s.reqs[r].status == Answered(p)
    {
      assert ResponseOk(PartOf(s), p);
    }
    if s.reqs[r].status.Answered? {
      assert answers == {s.reqs[r].status.pos};
    } else {
      assert answers == {};
    }
  }

  /** The announcement of a duplex call's streams is queued before its answer. */
  lemma AnnouncedBeforeAnswered(methods: MethodTable, es: seq<Event>, p: nat)
    requires Legal(Start(methods), es) && p < |Exec(Start(methods), es).queued|
    requires var s := Exec(Start(methods), es);
             s.queued[p].Response? && s.queued[p].req < |s.reqs| && s.reqs[s.queued[p].req].opens
    ensures var s := Exec(Start(methods), es);
            exists a: nat :: a < p && s.queued[a].Started? && s.queued[a].req == s.queued[p].req
  {
    var s := Exec(Start(methods), es);
    RunKeepsReqs(Start(methods), es);
    assert ResponseOk(PartOf(s), p);
    assert ReqOk(PartOf(s), s.queued[p].req);
    var a := s.reqs[s.queued[p].req].announced.value;
    assert a < p && s.queued[a].Started? && s.queued[a].req == s.queued[p].req;
  }
}

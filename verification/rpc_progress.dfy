/**
  When the service loop gets back to `select!`. The channel for replies has eight places, and
  its only receiver is the loop that puts replies into it, so a batch of messages that was
  read at once can be worked off if and only if what the loop itself has to send for it fits.
 */
module RpcProgress {
  import opened Wrappers
  import opened RpcDispatch
  import opened RpcService
  import RpcRequests
  import RpcCalls

  /** What the loop has to put into the channel for message `f` before it can go on. */
  function Sends(methods: MethodTable, f: Frame): nat {
    if f.methodName.None? then 0
    else if f.methodName.value !in methods then (if f.id.Some? then 1 else 0)
    else
      var m := methods[f.methodName.value];
      if m.SyncMethod? || m.StreamDataMethod? then (if f.id.Some? then 1 else 0)
      else if m.DuplexMethod? && !f.params.Malformed? then 1
      else 0
  }

  /** The same for the messages from place `from` up to place `to`. */
  function AllSends(methods: MethodTable, sent: seq<Frame>, from: nat, to: nat): nat
    requires from <= to <= |sent|
    decreases |sent| - from
  {
    if from == to then 0 else Sends(methods, sent[from]) + AllSends(methods, sent, from + 1, to)
  }

  lemma {:induction false} MoreSent(methods: MethodTable, a: seq<Frame>, b: seq<Frame>, from: nat, to: nat)
    requires from <= to <= |a| && a <= b
    ensures AllSends(methods, a, from, to) == AllSends(methods, b, from, to)
    decreases |a| - from
  {
    if from < to {
      MoreSent(methods, a, b, from + 1, to);
    }
  }

  predicate Sending(pc: Pc) {
    pc.Replying? || pc.Announcing?
  }

  /** What is in the channel, and what the loop must still add to it before it reads from it again. */
  function Load(s: State): int
    requires |s.reqs| <= s.received <= |s.sent|
  {
    |s.queued| - s.taken + (if Sending(s.pc) then 1 else 0) + AllSends(s.methods, s.sent, |s.reqs|, s.received)
  }

  /** A message with neither a method nor an id makes the loop panic. */
  predicate Sound(f: Frame) {
    f.methodName.Some? || f.id.Some?
  }

  // ------------------------------------------------------------------------
  // A full channel stays full.
  // ------------------------------------------------------------------------

  predicate Stuck(s: State) {
    Sending(s.pc) && (s.pc.Announcing? ==> s.pc.missing == 0) && |s.queued| >= s.taken + CAPACITY
  }

  lemma StuckStep(s: State, e: Event)
    requires Stuck(s) && Enabled(s, e)
    ensures Stuck(Step(s, e)) && Step(s, e).queued == s.queued && Step(s, e).taken == s.taken && Step(s, e).pc == s.pc
  {
  }

  /** A loop that finds the channel full waits forever, whatever everybody else does, and so do all senders. */
  lemma {:induction false} StuckForever(s: State, es: seq<Event>)
    requires Stuck(s) && Legal(s, es)
    ensures Stuck(Exec(s, es)) && Exec(s, es).pc == s.pc
    ensures Exec(s, es).queued == s.queued && Exec(s, es).taken == s.taken
    decreases |es|
  {
    if es != [] {
      StuckStep(s, es[0]);
      StuckForever(Step(s, es[0]), es[1..]);
    }
  }

  // ------------------------------------------------------------------------
  // Too much load is never worked off.
  // ------------------------------------------------------------------------

  function OutcomeSends(o: Outcome): nat {
    match o
    case Replied(reply) => if reply.Some? then 1 else 0
    case Wrote(_, _, reply) => if reply.Some? then 1 else 0
    case Opened(_, _) => 1
    case _ => 0
  }

  lemma ApplySends(s: State, f: Frame, o: Outcome)
    requires s.pc.Draining?
    ensures var s' := Apply(s, f, o);
            && (if Sending(s'.pc) then 1 else 0) == OutcomeSends(o)
            && (s'.pc.Crashed? <==> o.Panicked?)
            && (Sending(s'.pc) || s'.pc.Draining? || s'.pc.Crashed?)
            && s'.methods == s.methods
  {
  }

  lemma SendsOfOutcome(methods: MethodTable, calls: map<Id, nat>, f: Frame, ok: bool)
    ensures OutcomeSends(Dispatched(methods, calls, f, ok)) == Sends(methods, f)
    ensures Dispatched(methods, calls, f, ok).Panicked? <==> !Sound(f)
  {
  }

  /** The dispatch of a message makes the loop send exactly what `Sends` says. */
  lemma DispatchSends(s: State, ok: bool)
    requires Enabled(s, Dispatch(ok))
    ensures var s' := DoDispatch(s, ok);
            && (if Sending(s'.pc) then 1 else 0) == Sends(s.methods, s.sent[|s.reqs|])
            && (s'.pc.Crashed? <==> !Sound(s.sent[|s.reqs|]))
            && (Sending(s'.pc) || s'.pc.Draining? || s'.pc.Crashed?)
            && s'.queued == s.queued && s'.taken == s.taken && s'.methods == s.methods
            && s'.sent == s.sent && s'.received == s.received && |s'.reqs| == |s.reqs| + 1
  {
    var f := s.sent[|s.reqs|];
    var o := Dispatched(s.methods, s.calls, f, ok);
    SendsOfOutcome(s.methods, s.calls, f, ok);
    ApplySends(s, f, o);
    RpcRequests.DispatchShape(s, f, o);
  }

  lemma DispatchKeepsLoad(s: State, ok: bool)
    requires Enabled(s, Dispatch(ok)) && |s.reqs| <= s.received <= |s.sent|
    ensures var s' := DoDispatch(s, ok);
            |s'.reqs| <= s'.received <= |s'.sent| && Load(s') == Load(s)
  {
    DispatchSends(s, ok);
  }

  lemma MethodsStay(s: State, e: Event)
    requires Enabled(s, e) && !e.Dispatch?
    ensures Step(s, e).methods == s.methods
    ensures |Step(s, e).reqs| == |s.reqs|
    ensures !e.Receive? ==> Step(s, e).received == s.received
    ensures s.sent <= Step(s, e).sent && (!e.PeerSends? ==> Step(s, e).sent == s.sent)
  {
  }

  lemma LoadNeverShrinks(s: State, e: Event)
    requires RpcRequests.CursorsOk(s) && Enabled(s, e) && !s.pc.Selecting?
    ensures RpcRequests.CursorsOk(Step(s, e)) && Load(Step(s, e)) >= Load(s)
    ensures Step(s, e).taken == s.taken
  {
    RpcRequests.StepKeepsCursors(s, e);
    if e.Dispatch? {
      DispatchKeepsLoad(s, e.ok);
      DispatchSends(s, e.ok);
    } else {
      MethodsStay(s, e);
      MoreSent(s.methods, s.sent, Step(s, e).sent, |s.reqs|, s.received);
    }
  }

  lemma SelectingFits(s: State)
    requires RpcRequests.CursorsOk(s)
    ensures s.pc.Selecting? ==> Load(s) <= CAPACITY
  {
  }

  /** With more load than places, the loop never selects again, and nothing more is written out. */
  lemma {:induction false} OverloadIsFinal(s: State, es: seq<Event>)
    requires RpcRequests.CursorsOk(s) && !s.pc.Selecting? && Load(s) > CAPACITY && Legal(s, es)
    ensures !Exec(s, es).pc.Selecting? && Exec(s, es).taken == s.taken
    decreases |es|
  {
    if es != [] {
      var s' := Step(s, es[0]);
      LoadNeverShrinks(s, es[0]);
      SelectingFits(s');
      OverloadIsFinal(s', es[1..]);
    }
  }

  // ------------------------------------------------------------------------
  // Anything else can be worked off by the loop alone.
  // ------------------------------------------------------------------------

  function Rank(pc: Pc): nat {
    match pc
    case Replying(_, _) => 1
    case Announcing(_, _, streams, missing) => |streams| + 2 * missing + 3
    case Registering(_, _, streams) => |streams| + 2
    case _ => 0
  }

  /** The step the loop is at. */
  function LoopEvent(s: State): Event
    requires |s.reqs| <= s.received
  {
    match s.pc
    case Replying(_, _) => SendReply
    case Announcing(_, _, _, missing) => if missing > 0 then TakeStreamId else Announce
    case Registering(_, _, streams) => if streams == [] then Spawn else Register
    case _ => if |s.reqs| == s.received then Settle else Dispatch(true)
  }

  /** The loop is in the middle of a batch without malformed messages. */
  ghost predicate Working(s: State) {
    && RpcRequests.CursorsOk(s) && RpcRequests.PcOk(RpcRequests.PartOf(s))
    && !s.pc.Selecting? && !s.pc.Crashed?
    && (forall k | |s.reqs| <= k < s.received :: Sound(s.sent[k]))
  }

  lemma LoopStep(s: State)
    requires Working(s) && Load(s) <= CAPACITY
    ensures Enabled(s, LoopEvent(s))
    ensures var s' := Step(s, LoopEvent(s));
            && RpcRequests.CursorsOk(s') && Load(s') == Load(s) && s'.sent == s.sent
            && (s'.pc.Selecting? || (Working(s') && Closer(s, s')))
  {
    RpcRequests.StepKeepsCursors(s, LoopEvent(s));
    if LoopEvent(s).Dispatch? {
      LoopStepsOnDispatch(s);
    } else {
      LoopStepsOtherwise(s);
    }
  }

  function ToDispatch(s: State): nat
    requires |s.reqs| <= s.received
  {
    s.received - |s.reqs|
  }

  predicate Closer(s: State, s': State)
    requires |s.reqs| <= s.received <= |s.sent| && |s'.reqs| <= s'.received <= |s'.sent|
  {
    ToDispatch(s') < ToDispatch(s) || (ToDispatch(s') == ToDispatch(s) && Rank(s'.pc) < Rank(s.pc))
  }

  lemma LoopStepsOnDispatch(s: State)
    requires Working(s) && Load(s) <= CAPACITY && LoopEvent(s).Dispatch?
    requires RpcRequests.CursorsOk(DoDispatch(s, true))
    ensures var s' := DoDispatch(s, true); Load(s') == Load(s) && s'.sent == s.sent && Working(s') && Closer(s, s')
  {
    DispatchKeepsLoad(s, true);
    DispatchSends(s, true);
    LoopDispatch(s);
  }

  lemma LoopStepsOtherwise(s: State)
    requires Working(s) && Load(s) <= CAPACITY && !LoopEvent(s).Dispatch?
    requires Enabled(s, LoopEvent(s)) ==> RpcRequests.CursorsOk(Step(s, LoopEvent(s)))
    ensures Enabled(s, LoopEvent(s))
    ensures var s' := Step(s, LoopEvent(s));
            Load(s') == Load(s) && s'.sent == s.sent && (s'.pc.Selecting? || (Working(s') && Closer(s, s')))
  {
    MethodsStay(s, LoopEvent(s));
  }

  lemma LoopDispatch(s: State)
    requires Working(s) && Enabled(s, Dispatch(true))
    ensures RpcRequests.PcOk(RpcRequests.PartOf(DoDispatch(s, true)))
  {
  }

  lemma {:induction false} WorkOff(s: State) returns (es: seq<Event>)
    requires Working(s) && Load(s) <= CAPACITY
    ensures Legal(s, es) && Exec(s, es).pc.Selecting? && Exec(s, es).sent == s.sent
    decreases ToDispatch(s), Rank(s.pc)
  {
    var e := LoopEvent(s);
    LoopStep(s);
    var s' := Step(s, e);
    es := [];
    if !s'.pc.Selecting? {
      es := WorkOff(s');
    }
    RpcCalls.Prepend(s, e, es);
    es := [e] + es;
  }

  /** A batch can be worked off if and only if its load fits into the channel. */
  lemma WorkedOffIffItFits(s: State)
    requires Working(s)
    ensures (exists es: seq<Event> :: Legal(s, es) && Exec(s, es).pc.Selecting?) <==> Load(s) <= CAPACITY
  {
    if Load(s) <= CAPACITY {
      var es := WorkOff(s);
    } else {
      forall es: seq<Event> | Legal(s, es)
        ensures !Exec(s, es).pc.Selecting?
      {
        OverloadIsFinal(s, es);
      }
    }
  }

  /**
    On any connection that is selecting, a read that brings in more than eight answers' worth
    of work on top of what is queued ends the connection's service for good.
   */
  lemma OneReadTooMany(methods: MethodTable, es: seq<Event>, count: nat, more: seq<Event>)
    requires Legal(Start(methods), es)
    requires var s := Exec(Start(methods), es);
             && s.pc.Selecting? && |s.reqs| <= s.received && s.received + count <= |s.sent|
             && |s.queued| - s.taken + AllSends(s.methods, s.sent, |s.reqs|, s.received + count) > CAPACITY
             && Legal(Step(s, Receive(count)), more)
    ensures var s' := Exec(Step(Exec(Start(methods), es), Receive(count)), more);
            !s'.pc.Selecting? && s'.taken == Exec(Start(methods), es).taken
  {
    var s := Exec(Start(methods), es);
    RpcRequests.RunKeepsReqs(Start(methods), es);
    RpcRequests.StepKeepsCursors(s, Receive(count));
    OverloadIsFinal(Step(s, Receive(count)), more);
  }

  function Requests(name: string, count: nat): (fs: seq<Frame>)
    ensures |fs| == count && forall k :: 0 <= k < count ==> fs[k] == Frame(Some(k), Some(name), false, Malformed)
  {
    seq(count, k requires 0 <= k < count => Frame(Some(k), Some(name), false, Malformed))
  }

  function AsSent(fs: seq<Frame>): seq<Event> {
    if fs == [] then [] else [PeerSends(fs[0])] + AsSent(fs[1..])
  }

  lemma {:induction false} SendAll(s: State, fs: seq<Frame>)
    ensures Legal(s, AsSent(fs)) && Exec(s, AsSent(fs)) == s.(sent := s.sent + fs)
    decreases |fs|
  {
    if fs == [] {
      assert s.sent + [] == s.sent;
    } else {
      var e := PeerSends(fs[0]);
      SendAll(Step(s, e), fs[1..]);
      RpcCalls.Prepend(s, e, AsSent(fs[1..]));
      assert s.sent + [fs[0]] + fs[1..] == s.sent + fs;
    }
  }

  lemma {:induction false} RequestsSend(methods: MethodTable, name: string, count: nat, from: nat)
    requires name !in methods && from <= count
    ensures AllSends(methods, Requests(name, count), from, count) == count - from
    decreases count - from
  {
    if from < count {
      RequestsSend(methods, name, count, from + 1);
    }
  }

  /** Nine requests for an unknown method, read at once: whatever happens then, nothing is ever written out. */
  lemma NineUnknownMethods(methods: MethodTable, name: string, more: seq<Event>)
    requires name !in methods
    ensures Legal(Start(methods), AsSent(Requests(name, 9)))
    ensures var s := Exec(Start(methods), AsSent(Requests(name, 9)));
            && Enabled(s, Receive(9))
            && (Legal(Step(s, Receive(9)), more) ==>
                  var s' := Exec(Step(s, Receive(9)), more); !s'.pc.Selecting? && s'.taken == 0)
  {
    var es := AsSent(Requests(name, 9));
    SendAll(Start(methods), Requests(name, 9));
    assert [] + Requests(name, 9) == Requests(name, 9);
    RequestsSend(methods, name, 9, 0);
    if Legal(Step(Exec(Start(methods), es), Receive(9)), more) {
      OneReadTooMany(methods, es, 9, more);
    }
  }

  // ------------------------------------------------------------------------
  // What is owed can be paid.
  // ------------------------------------------------------------------------

  lemma Then(s: State, a: seq<Event>, b: seq<Event>)
    requires Legal(s, a) && Legal(Exec(s, a), b)
    ensures Legal(s, a + b) && Exec(s, a + b) == Exec(Exec(s, a), b)
    decreases |a|
  {
    if a == [] {
      assert a + b == b;
    } else {
      Then(Step(s, a[0]), a[1..], b);
      SplitOff(a, b);
    }
  }

  lemma SplitOff(a: seq<Event>, b: seq<Event>)
    requires a != []
    ensures (a + b)[0] == a[0] && (a + b)[1..] == a[1..] + b
  {
  }

  /** With room in the channel, a spawned job can run and queue its answer. */
  lemma JobCanAnswer(s: State, r: nat) returns (es: seq<Event>)
    requires r < |s.reqs| && s.reqs[r].status.InFlight? && s.reqs[r].status.job.id.Some? && Room(s)
    ensures Legal(s, es) && r < |Exec(s, es).reqs| && Exec(s, es).reqs[r].status.Answered?
  {
    var s1 := if s.reqs[r].status.ran then s else Step(s, RunJob(r));
    RpcCalls.Prepend(s1, FinishJob(r, true), []);
    es := [FinishJob(r, true)] + [];
    if !s.reqs[r].status.ran {
      RpcCalls.Prepend(s, RunJob(r), es);
      es := [RunJob(r)] + es;
    }
  }

  lemma SelectingCanAnswer(s: State, r: nat) returns (es: seq<Event>)
    requires RpcRequests.ReqsOk(s) && s.pc.Selecting?
    requires r < |s.reqs| && RpcRequests.IsRequest(s.reqs[r].frame)
    ensures Legal(s, es) && r < |Exec(s, es).reqs| && Exec(s, es).reqs[r].status.Answered?
  {
    assert RpcRequests.ReqOk(RpcRequests.PartOf(s), r);
    es := [];
    if !s.reqs[r].status.Answered? {
      if Room(s) {
        es := JobCanAnswer(s, r);
      } else {
        es := JobCanAnswer(Step(s, WriteOut), r);
        RpcCalls.Prepend(s, WriteOut, es);
        es := [WriteOut] + es;
      }
    }
  }

  /**
    Every request that was dispatched can still get its answer: from any state in which the loop
    is selecting, or can get back to it.
   */
  lemma OwedCanBeAnswered(s: State, r: nat) returns (es: seq<Event>)
    requires RpcRequests.ReqsOk(s) && r < |s.reqs| && RpcRequests.IsRequest(s.reqs[r].frame)
    requires s.pc.Selecting? || (Working(s) && Load(s) <= CAPACITY)
    ensures Legal(s, es) && r < |Exec(s, es).reqs| && Exec(s, es).reqs[r].status.Answered?
  {
    if s.pc.Selecting? {
      es := SelectingCanAnswer(s, r);
    } else {
      var a := WorkOff(s);
      RpcRequests.RunKeepsReqs(s, a);
      ReqsStay(s, a);
      var b := SelectingCanAnswer(Exec(s, a), r);
      Then(s, a, b);
      es := a + b;
    }
  }

  lemma {:induction false} ReqsStay(s: State, es: seq<Event>)
    requires RpcRequests.ReqsOk(s) && Legal(s, es)
    ensures |s.reqs| <= |Exec(s, es).reqs|
    ensures forall r :: 0 <= r < |s.reqs| ==> Exec(s, es).reqs[r].frame == s.reqs[r].frame
    decreases |es|
  {
    if es != [] {
      RpcRequests.StepKeepsReqs(s, es[0]);
      OneStepReqsStay(s, es[0]);
      ReqsStay(Step(s, es[0]), es[1..]);
    }
  }

  lemma OneStepReqsStay(s: State, e: Event)
    requires Enabled(s, e)
    ensures |s.reqs| <= |Step(s, e).reqs|
    ensures forall r :: 0 <= r < |s.reqs| ==> Step(s, e).reqs[r].frame == s.reqs[r].frame
  {
    if e.Dispatch? {
      var f := s.sent[|s.reqs|];
      var o := Dispatched(s.methods, s.calls, f, e.ok);
      RpcRequests.DispatchIsRecorded(s, f, o);
      forall r | 0 <= r < |s.reqs|
        ensures Apply(s, f, o).reqs[r] == s.reqs[r]
      {
        assert Apply(s, f, o).reqs[..|s.reqs|][r] == s.reqs[r];
      }
    } else {
      RpcRequests.FramesStay(s, e);
    }
  }
}

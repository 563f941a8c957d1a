/**
  Calls made on this side of the connection (`RpcCaller::call` in cli/src/rpc.rs): ids are
  not shared, a callback is run at most once, and which response runs it.
 */
module RpcCalls {
  import opened Wrappers
  import opened RpcDispatch
  import opened RpcService
  import RpcNames

  /** The part of the state that calls are about. */
  datatype Desk = Desk(owners: seq<Owner>, reqs: seq<Req>, calls: map<Id, nat>, callers: seq<Caller>)

  function DeskOf(s: State): Desk {
    Desk(s.owners, s.reqs, s.calls, s.callers)
  }

  predicate Responds(f: Frame, id: Id) {
    f.methodName.None? && f.id == Some(id)
  }

  /** No response for `id` was dispatched from `a` up to `b`. */
  predicate Unanswered(reqs: seq<Req>, id: Id, a: nat, b: nat) {
    forall r: nat | a <= r < b && r < |reqs| :: !Responds(reqs[r].frame, id)
  }

  /** A registered call is pending until the first response after its registration, which runs its callback. */
  ghost predicate CallerOk(d: Desk, k: nat)
    requires k < |d.callers|
  {
    var c := d.callers[k];
    && c.id < |d.owners| && d.owners[c.id] == OfCall(k)
    && if c.registeredAt.None? then
         c.resolvedBy == [] && c.id !in d.calls
       else
         && c.registeredAt.value <= |d.reqs|
         && if c.id in d.calls then
              d.calls[c.id] == k && c.resolvedBy == [] && Unanswered(d.reqs, c.id, c.registeredAt.value, |d.reqs|)
            else
              && |c.resolvedBy| == 1 && c.registeredAt.value <= c.resolvedBy[0] < |d.reqs|
              && Responds(d.reqs[c.resolvedBy[0]].frame, c.id)
              && Unanswered(d.reqs, c.id, c.registeredAt.value, c.resolvedBy[0])
  }

  ghost predicate PendingOk(d: Desk, id: Id)
    requires id in d.calls
  {
    d.calls[id] < |d.callers| && d.callers[d.calls[id]].id == id && d.callers[d.calls[id]].registeredAt.Some?
  }

  ghost predicate DeskOk(d: Desk) {
    && (forall k: nat | k < |d.callers| :: CallerOk(d, k))
    && (forall id | id in d.calls :: PendingOk(d, id))
  }

  lemma FramesKeepDesk(d: Desk, reqs: seq<Req>)
    requires DeskOk(d) && |reqs| == |d.reqs|
    requires forall r :: 0 <= r < |reqs| ==> reqs[r].frame == d.reqs[r].frame
    ensures DeskOk(d.(reqs := reqs))
  {
    var d' := d.(reqs := reqs);
    forall k: nat | k < |d.callers|
      ensures CallerOk(d', k)
    {
      assert CallerOk(d, k);
    }
    forall id | id in d'.calls
      ensures PendingOk(d', id)
    {
      assert PendingOk(d, id);
    }
  }

  /** An id taken by anybody else. */
  lemma OwnersKeepDesk(d: Desk, more: seq<Owner>)
    requires DeskOk(d)
    ensures DeskOk(d.(owners := d.owners + more))
  {
    var d' := d.(owners := d.owners + more);
    forall k: nat | k < |d.callers|
      ensures CallerOk(d', k)
    {
      assert CallerOk(d, k);
    }
    forall id | id in d'.calls
      ensures PendingOk(d', id)
    {
      assert PendingOk(d, id);
    }
  }

  /** Dispatching anything that is not a response. */
  lemma RequestKeepsDesk(d: Desk, q: Req)
    requires DeskOk(d) && !(q.frame.methodName.None? && q.frame.id.Some?)
    ensures DeskOk(d.(reqs := d.reqs + [q]))
  {
    var d' := d.(reqs := d.reqs + [q]);
    forall k: nat | k < |d.callers|
      ensures CallerOk(d', k)
    {
      assert CallerOk(d, k);
    }
    forall id | id in d'.calls
      ensures PendingOk(d', id)
    {
      assert PendingOk(d, id);
    }
  }

  lemma ResponseKeepsDesk(d: Desk, q: Req, id: Id)
    requires DeskOk(d) && Responds(q.frame, id)
    ensures DeskOk(Desk(d.owners, d.reqs + [q], d.calls - {id},
                        Resolve(d.callers, if id in d.calls then Some(d.calls[id]) else None, |d.reqs|)))
  {
    var call := if id in d.calls then Some(d.calls[id]) else None;
    var d' := Desk(d.owners, d.reqs + [q], d.calls - {id}, Resolve(d.callers, call, |d.reqs|));
    if id in d.calls {
      assert PendingOk(d, id);
    }
    forall k: nat | k < |d'.callers|
      ensures CallerOk(d', k)
    {
      assert CallerOk(d, k);
      assert d'.callers[k].id == d.callers[k].id;
    }
    forall i | i in d'.calls
      ensures PendingOk(d', i)
    {
      assert PendingOk(d, i);
    }
  }

  lemma StartKeepsDesk(d: Desk)
    requires DeskOk(d) && |d.owners| < ID_SPACE
    ensures DeskOk(d.(owners := d.owners + [OfCall(|d.callers|)],
                      callers := d.callers + [Caller(NthId(|d.owners|), None, [])]))
  {
    var k := |d.callers|;
    var d' := d.(owners := d.owners + [OfCall(k)], callers := d.callers + [Caller(NthId(|d.owners|), None, [])]);
    forall id | id in d.calls
      ensures id < |d.owners|
    {
      assert PendingOk(d, id);
      assert CallerOk(d, d.calls[id]);
    }
    forall j: nat | j < |d'.callers|
      ensures CallerOk(d', j)
    {
      if j < k {
        assert CallerOk(d, j);
      }
    }
    forall id | id in d'.calls
      ensures PendingOk(d', id)
    {
      assert PendingOk(d, id);
    }
  }

  lemma RegisterKeepsDesk(d: Desk, k: nat)
    requires DeskOk(d) && k < |d.callers| && d.callers[k].registeredAt.None?
    ensures DeskOk(d.(calls := d.calls[d.callers[k].id := k],
                      callers := d.callers[k := d.callers[k].(registeredAt := Some(|d.reqs|))]))
  {
    var id := d.callers[k].id;
    var d' := d.(calls := d.calls[id := k], callers := d.callers[k := d.callers[k].(registeredAt := Some(|d.reqs|))]);
    assert CallerOk(d, k);
    forall j: nat | j < |d'.callers|
      ensures CallerOk(d', j)
    {
      assert CallerOk(d, j);
    }
    forall i | i in d'.calls
      ensures PendingOk(d', i)
    {
      if i != id {
        assert PendingOk(d, i);
      }
    }
  }

  lemma DispatchKeepsDesk(s: State, ok: bool)
    requires DeskOk(DeskOf(s)) && Enabled(s, Dispatch(ok))
    ensures DeskOk(DeskOf(DoDispatch(s, ok)))
  {
    var f := s.sent[|s.reqs|];
    var o := Dispatched(s.methods, s.calls, f, ok);
    var s' := Apply(s, f, o);
    DispatchAnswersOnce(s.methods, s.calls, f, ok);
    var q := s'.reqs[|s.reqs|];
    if o.Resolved? {
      ResponseKeepsDesk(DeskOf(s), q, f.id.value);
    } else {
      RequestKeepsDesk(DeskOf(s), q);
      assert DeskOf(s') == DeskOf(s).(reqs := s.reqs + [q]);
    }
  }

  lemma StepKeepsDesk(s: State, e: Event)
    requires DeskOk(DeskOf(s)) && Enabled(s, e) && NoWrap(Step(s, e))
    ensures DeskOk(DeskOf(Step(s, e)))
  {
    match e
    case Dispatch(ok) => DispatchKeepsDesk(s, ok);
    case StartCall => StartKeepsDesk(DeskOf(s));
    case RegisterCall(k) => RegisterKeepsDesk(DeskOf(s), k);
    case TakeElsewhere => OwnersKeepDesk(DeskOf(s), [Elsewhere]);
    case TakeStreamId => OwnersKeepDesk(DeskOf(s), [OfStream(s.pc.req)]);
    case _ =>
      FramesKeepDesk(DeskOf(s), Step(s, e).reqs);
      assert DeskOf(Step(s, e)) == DeskOf(s).(reqs := Step(s, e).reqs);
  }

  lemma {:induction false} RunKeepsDesk(s: State, es: seq<Event>)
    requires DeskOk(DeskOf(s)) && Legal(s, es) && NoWrap(Exec(s, es))
    ensures DeskOk(DeskOf(Exec(s, es)))
    decreases |es|
  {
    if es != [] {
      RpcNames.OwnersGrowAlong(Step(s, es[0]), es[1..]);
      StepKeepsDesk(s, es[0]);
      RunKeepsDesk(Step(s, es[0]), es[1..]);
    }
  }

  // ------------------------------------------------------------------------
  // What the invariant means.
  // ------------------------------------------------------------------------

  /** A response for call `k` was dispatched when the call was already registered. */
  ghost predicate AnsweredInTime(s: State, k: nat)
    requires k < |s.callers|
  {
    s.callers[k].registeredAt.Some? &&
    exists r: nat :: s.callers[k].registeredAt.value <= r < |s.reqs| && Responds(s.reqs[r].frame, s.callers[k].id)
  }

  /**
    In every run: a callback runs at most once, on the first response with its own id that is
    dispatched after it was registered, and it runs if and only if there is one; until then,
    and only then, it is in the map of pending calls.
   */
  lemma CallCorrelation(methods: MethodTable, es: seq<Event>, k: nat)
    requires Legal(Start(methods), es) && NoWrap(Exec(Start(methods), es))
    requires k < |Exec(Start(methods), es).callers|
    ensures var s := Exec(Start(methods), es);
            var c := s.callers[k];
            && (c.resolvedBy == [] <==> !AnsweredInTime(s, k))
            && (c.resolvedBy != [] ==>
                  && |c.resolvedBy| == 1 && c.resolvedBy[0] < |s.reqs|
                  && Responds(s.reqs[c.resolvedBy[0]].frame, c.id)
                  && c.registeredAt.Some? && Unanswered(s.reqs, c.id, c.registeredAt.value, c.resolvedBy[0]))
            && (c.id in s.calls && s.calls[c.id] == k <==> c.registeredAt.Some? && !AnsweredInTime(s, k))
  {
    var s := Exec(Start(methods), es);
    RunKeepsDesk(Start(methods), es);
    assert CallerOk(DeskOf(s), k);
    if s.callers[k].resolvedBy != [] {
      assert AnsweredInTime(s, k) by {
        assert Responds(s.reqs[s.callers[k].resolvedBy[0]].frame, s.callers[k].id);
      }
    }
  }

  /** No two calls, and no call and stream, have the same id. */
  lemma IdsAreNotShared(methods: MethodTable, es: seq<Event>, j: nat, k: nat, stream: Id)
    requires Legal(Start(methods), es) && NoWrap(Exec(Start(methods), es))
    ensures var s := Exec(Start(methods), es);
            && (j < k < |s.callers| ==> s.callers[j].id != s.callers[k].id)
            && (k < |s.callers| && (stream in s.started || stream in s.streams.home) ==> s.callers[k].id != stream)
  {
    var s := Exec(Start(methods), es);
    RunKeepsDesk(Start(methods), es);
    RpcNames.RunKeepsInv(Start(methods), es);
    NotSharedIn(DeskOf(s), RpcNames.NamesOf(s), j, k, stream);
  }

  lemma NotSharedIn(d: Desk, n: RpcNames.Names, j: nat, k: nat, stream: Id)
    requires DeskOk(d) && RpcNames.LifeOk(n) && n.owners == d.owners
    ensures j < k < |d.callers| ==> d.callers[j].id != d.callers[k].id
    ensures k < |d.callers| && (stream in n.started || stream in n.home) ==> d.callers[k].id != stream
  {
    if k < |d.callers| {
      assert CallerOk(d, k);
    }
    if j < |d.callers| {
      assert CallerOk(d, j);
    }
  }

  lemma Prepend(s: State, e: Event, es: seq<Event>)
    requires Enabled(s, e) && Legal(Step(s, e), es)
    ensures Legal(s, [e] + es) && Exec(s, [e] + es) == Exec(Step(s, e), es)
  {
    assert ([e] + es)[1..] == es;
  }

  /** The one call made was sent and answered, and its callback is still pending. */
  ghost predicate LeftPending(s: State) {
    && |s.callers| == 1 && s.outbox == [] && s.callers[0].registeredAt.Some?
    && |s.reqs| == 1 && Responds(s.reqs[0].frame, s.callers[0].id)
    && s.callers[0].resolvedBy == [] && s.callers[0].id in s.calls
  }

  /**
    `call` sends before it registers, so a quick response is lost: the peer answers the call,
    the answer is dispatched, and the callback is left in the map.
   */
  lemma QuickResponseIsLost(methods: MethodTable)
    ensures exists es: seq<Event> :: Legal(Start(methods), es) && LeftPending(Exec(Start(methods), es))
  {
    var s0 := Start(methods);
    var s1 := Step(s0, StartCall);
    var s2 := Step(s1, WriteCall);
    assert s2.callers == [Caller(0, None, [])] && s2.outbox == [];
    var es := AnsweredTail(s2);
    Prepend(s1, WriteCall, es);
    Prepend(s0, StartCall, [WriteCall] + es);
  }

  /** The call was written out; its answer comes, and is read. */
  lemma AnsweredTail(s: State) returns (es: seq<Event>)
    requires s.sent == [] && s.received == 0 && s.pc.Selecting? && s.reqs == [] && s.calls == map[]
    requires s.callers == [Caller(0, None, [])] && s.outbox == []
    ensures Legal(s, es) && LeftPending(Exec(s, es))
  {
    var f := Frame(Some(0), None, false, Plain);
    var s1 := Step(s, PeerSends(f));
    var s2 := Step(s1, Receive(1));
    es := LostTail(s2, f);
    Prepend(s1, Receive(1), es);
    Prepend(s, PeerSends(f), [Receive(1)] + es);
    es := [PeerSends(f)] + ([Receive(1)] + es);
  }

  lemma LostTail(s: State, f: Frame) returns (es: seq<Event>)
    requires f == Frame(Some(0), None, false, Plain)
    requires s.sent == [f] && s.received == 1 && s.pc.Draining? && s.reqs == [] && s.calls == map[]
    requires s.callers == [Caller(0, None, [])] && s.outbox == []
    ensures Legal(s, es) && LeftPending(Exec(s, es))
  {
    var s1 := Step(s, Dispatch(true));
    assert s1.callers == s.callers && s1.calls == map[];
    Prepend(s1, RegisterCall(0), []);
    Prepend(s, Dispatch(true), [RegisterCall(0)] + []);
    es := [Dispatch(true)] + ([RegisterCall(0)] + []);
  }
}

/**
  Dispatching one message in cli/src/rpc.rs: the method table, `dispatch_with_partial`,
  the id counter and the map of calls that wait for a response.
 */
module RpcDispatch {
  import opened Wrappers
  import Streams

  type Id = nat
  type Chunk = Streams.Chunk

  const ID_SPACE: nat := 0x1_0000_0000

  /** What deserializing the `params` of a message can give. */
  datatype Params = Malformed | Plain | StreamDataParams(stream: Id, segment: Chunk) | StreamEndedParams(stream: Id)

  /** The `PartialIncoming` view of a message, together with its parameters. */
  datatype Frame = Frame(id: Option<Id>, methodName: Option<string>, error: bool, params: Params)

  datatype Method = SyncMethod | AsyncMethod | DuplexMethod(streams: nat) | StreamDataMethod | StreamEndedMethod

  type MethodTable = map<string, Method>

  const STREAM_DATA := "stream_data"
  const STREAM_ENDED := "stream_ended"

  /** `RpcMethodBuilder::build`: registering `stream_data` a second time panics, `stream_ended` is overwritten. */
  function Build(user: MethodTable): (r: Option<MethodTable>)
    ensures r.None? <==> STREAM_DATA in user
    ensures r.Some? ==> STREAM_DATA in r.value && r.value[STREAM_DATA] == StreamDataMethod
    ensures r.Some? ==> STREAM_ENDED in r.value && r.value[STREAM_ENDED] == StreamEndedMethod
    ensures r.Some? ==> forall m | m != STREAM_DATA && m != STREAM_ENDED ::
              (m in r.value <==> m in user) && (m in user ==> r.value[m] == user[m])
  {
    var withEnded := user[STREAM_ENDED := StreamEndedMethod];
    assert STREAM_DATA[7] != STREAM_ENDED[7];
    if STREAM_DATA in withEnded then None else Some(withEnded[STREAM_DATA := StreamDataMethod])
  }

  /** What `register_sync`, `register_async` and `register_duplex` leave in a table. */
  predicate Registered(user: MethodTable) {
    forall m | m in user :: user[m].SyncMethod? || user[m].AsyncMethod? || user[m].DuplexMethod?
  }

  /** The method table has what `build` puts there. */
  predicate Built(methods: MethodTable) {
    && STREAM_DATA in methods && methods[STREAM_DATA] == StreamDataMethod
    && STREAM_ENDED in methods && methods[STREAM_ENDED] == StreamEndedMethod
    && forall m | m in methods ::
         (methods[m].StreamDataMethod? ==> m == STREAM_DATA) && (methods[m].StreamEndedMethod? ==> m == STREAM_ENDED)
  }

  /** Whatever was registered, a table that is built is a `Built` one. */
  lemma BuildIsBuilt(user: MethodTable)
    requires Registered(user) && STREAM_DATA !in user
    ensures Build(user).Some? && Built(Build(user).value)
  {
    var methods := Build(user).value;
    forall m | m in methods && m != STREAM_DATA && m != STREAM_ENDED
      ensures methods[m] == user[m]
    {
    }
  }

  /** Success, code 0 for bad parameters, code -1 for a failed callback or an unknown method. */
  datatype Code = Succeeded | BadParams | Failed | NotFound

  datatype JobKind = Reject | Callback | Removal(stream: Id)

  /** A future that `dispatch` hands to the caller; it answers `id`, if there is one. */
  datatype Job = Job(id: Option<Id>, kind: JobKind)

  datatype Reply = Reply(id: Id, code: Code)

  /** `MaybeSync`, with the effects that happen before it is returned. */
  datatype Outcome =
    | Panicked
    | Replied(reply: Option<Reply>)
    | Wrote(stream: Id, segment: Chunk, reply: Option<Reply>)
    | Spawned(job: Job)
    | Opened(streams: nat, job: Job)
    | Resolved(call: Option<nat>)

  function ReplyTo(id: Option<Id>, code: Code): Option<Reply> {
    if id.Some? then Some(Reply(id.value, code)) else None
  }

  /** Whether the parameters are what the method's own type asks for. */
  predicate Fits(m: Method, p: Params) {
    match m
    case StreamDataMethod => p.StreamDataParams?
    case StreamEndedMethod => p.StreamEndedParams?
    case _ => !p.Malformed?
  }

  /** `dispatch_with_partial`; `ok` is the result of a synchronous callback. */
  function Dispatched(methods: MethodTable, calls: map<Id, nat>, f: Frame, ok: bool): Outcome {
    if f.methodName.Some? then
      if f.methodName.value !in methods then Replied(ReplyTo(f.id, NotFound))
      else
        var m := methods[f.methodName.value];
        if !Fits(m, f.params) then
          if m.SyncMethod? || m.StreamDataMethod? then Replied(ReplyTo(f.id, BadParams)) else Spawned(Job(f.id, Reject))
        else
          match m
          case SyncMethod => Replied(ReplyTo(f.id, if ok then Succeeded else Failed))
          case AsyncMethod => Spawned(Job(f.id, Callback))
          case DuplexMethod(n) => Opened(n, Job(f.id, Callback))
          case StreamDataMethod => Wrote(f.params.stream, f.params.segment, ReplyTo(f.id, Succeeded))
          case StreamEndedMethod => Spawned(Job(f.id, Removal(f.params.stream)))
    else if f.id.None? then Panicked
    else Resolved(if f.id.value in calls then Some(calls[f.id.value]) else None)
  }

  /** A response takes its callback out of the map. */
  function CallsAfter(calls: map<Id, nat>, f: Frame): map<Id, nat> {
    if f.methodName.None? && f.id.Some? then calls - {f.id.value} else calls
  }

  /** The reply or the job that an outcome owes its sender. */
  function Answers(o: Outcome): seq<Id> {
    match o
    case Replied(r) => if r.Some? then [r.value.id] else []
    case Wrote(_, _, r) => if r.Some? then [r.value.id] else []
    case Spawned(j) => if j.id.Some? then [j.id.value] else []
    case Opened(_, j) => if j.id.Some? then [j.id.value] else []
    case _ => []
  }

  /** A request is answered once, under its id; nothing else is answered; only a message that is neither panics. */
  lemma DispatchAnswersOnce(methods: MethodTable, calls: map<Id, nat>, f: Frame, ok: bool)
    ensures f.methodName.Some? && f.id.Some? ==> Answers(Dispatched(methods, calls, f, ok)) == [f.id.value]
    ensures f.methodName.None? || f.id.None? ==> Answers(Dispatched(methods, calls, f, ok)) == []
    ensures Dispatched(methods, calls, f, ok).Panicked? <==> f.methodName.None? && f.id.None?
    ensures Dispatched(methods, calls, f, ok).Resolved? <==> f.methodName.None? && f.id.Some?
  {
    if f.methodName.Some? && f.methodName.value in methods {
      match methods[f.methodName.value]
      case _ =>
    }
  }

  /** The identifier handed out when `n` were handed out before. */
  function NthId(n: nat): Id {
    n % ID_SPACE
  }

  function IdRange(from: nat, count: nat): (ids: seq<Id>)
    ensures |ids| == count
  {
    seq<Id>(count, i requires 0 <= i < count => NthId(from + i))
  }

  lemma NearbyIdsDiffer(a: nat, b: nat)
    requires a < b < a + ID_SPACE
    ensures NthId(a) != NthId(b)
  {
    assert a == ID_SPACE * (a / ID_SPACE) + NthId(a);
    assert b == ID_SPACE * (b / ID_SPACE) + NthId(b);
  }

  /** Consecutive ids differ for as long as the 32-bit counter does not come round, and no longer. */
  lemma IdsDistinct(from: nat, count: nat)
    ensures (forall i, j :: 0 <= i < j < count ==> IdRange(from, count)[i] != IdRange(from, count)[j]) <==> count <= ID_SPACE
  {
    var ids := IdRange(from, count);
    if count <= ID_SPACE {
      forall i, j | 0 <= i < j < count
        ensures ids[i] != ids[j]
      {
        NearbyIdsDiffer(from + i, from + j);
      }
    } else {
      assert ids[0] == NthId(from) && ids[ID_SPACE] == NthId(from + ID_SPACE);
      assert (from + ID_SPACE) % ID_SPACE == from % ID_SPACE;
    }
  }

  function Sum(counts: seq<nat>): nat {
    if counts == [] then 0 else Sum(counts[..|counts|-1]) + counts[|counts|-1]
  }

  lemma {:induction false} SumGrows(counts: seq<nat>, i: nat, j: nat)
    requires i <= j <= |counts|
    ensures Sum(counts[..i]) <= Sum(counts[..j]) <= Sum(counts)
    decreases |counts| - i
  {
    if i < j {
      assert counts[..i + 1][..i] == counts[..i];
      SumGrows(counts, i + 1, j);
    } else if j < |counts| {
      assert counts[..j + 1][..j] == counts[..j];
      SumGrows(counts, j + 1, j + 1);
    } else {
      assert counts[..j] == counts;
    }
  }

  /** The streams of one call get different ids, unless the process takes more than there are meanwhile. */
  lemma StreamIdsDiffer(from: nat, others: seq<nat>, i: nat, j: nat)
    requires i < j < |others| && Sum(others) + |others| <= ID_SPACE
    ensures NthId(from + Sum(others[..i + 1]) + i) != NthId(from + Sum(others[..j + 1]) + j)
  {
    var a, b := from + Sum(others[..i + 1]) + i, from + Sum(others[..j + 1]) + j;
    assert a < b < a + ID_SPACE by {
      SumGrows(others, i + 1, j + 1);
    }
    NearbyIdsDiffer(a, b);
  }

  /** `MESSAGE_ID_COUNTER`. */
  class IdCounter {
    var handedOut: nat

    constructor ()
      ensures handedOut == 0
    {
      handedOut := 0;
    }

    method Next() returns (id: Id)
      modifies this
      ensures id == NthId(old(handedOut)) && handedOut == old(handedOut) + 1
    {
      id := handedOut % ID_SPACE;
      handedOut := handedOut + 1;
    }

    /**
      The ids of the streams of one duplex call, while the rest of the process takes so many before
      each of them.
     */
    method NextStreams(others: seq<nat>) returns (ids: seq<Id>)
      modifies this
      ensures |ids| == |others| && handedOut == old(handedOut) + Sum(others) + |others|
      ensures forall k :: 0 <= k < |others| ==> ids[k] == NthId(old(handedOut) + Sum(others[..k + 1]) + k)
    {
      ids := [];
      for i := 0 to |others|
        invariant |ids| == i && handedOut == old(handedOut) + Sum(others[..i]) + i
        invariant forall k :: 0 <= k < i ==> ids[k] == NthId(old(handedOut) + Sum(others[..k + 1]) + k)
      {
        assert others[..i + 1][..i] == others[..i];
        handedOut := handedOut + others[i];
        var id := Next();
        ids := ids + [id];
      }
      assert others[..|others|] == others;
    }
  }

  /** The dispatcher and the caller that share one map of pending calls. */
  class Dispatcher {
    const methods: MethodTable
    const streams: Streams.StreamTable
    var calls: map<Id, nat>

    constructor (methods: MethodTable, streams: Streams.StreamTable)
      ensures this.methods == methods && this.streams == streams && calls == map[]
    {
      this.methods, this.streams, calls := methods, streams, map[];
    }

    method DispatchWithPartial(f: Frame, ok: bool) returns (o: Outcome, spawned: Option<Streams.Half>)
      modifies this, streams
      ensures o == Dispatched(methods, old(calls), f, ok)
      ensures calls == CallsAfter(old(calls), f)
      ensures (streams.table, spawned) ==
              if o.Wrote? then Streams.Written(old(streams.table), o.stream, o.segment) else (old(streams.table), None)
    {
      spawned := None;
      if f.methodName.Some? {
        if f.methodName.value !in methods {
          return Replied(ReplyTo(f.id, NotFound)), None;
        }
        var m := methods[f.methodName.value];
        if !Fits(m, f.params) {
          if m.SyncMethod? || m.StreamDataMethod? {
            return Replied(ReplyTo(f.id, BadParams)), None;
          }
          return Spawned(Job(f.id, Reject)), None;
        }
        match m {
          case SyncMethod =>
            o := Replied(ReplyTo(f.id, if ok then Succeeded else Failed));
          case AsyncMethod =>
            o := Spawned(Job(f.id, Callback));
          case DuplexMethod(n) =>
            o := Opened(n, Job(f.id, Callback));
          case StreamDataMethod =>
            spawned := streams.Write(f.params.stream, f.params.segment);
            o := Wrote(f.params.stream, f.params.segment, ReplyTo(f.id, Succeeded));
          case StreamEndedMethod =>
            o := Spawned(Job(f.id, Removal(f.params.stream)));
        }
      } else if f.id.None? {
        o := Panicked;
      } else {
        var id := f.id.value;
        o := Resolved(if id in calls then Some(calls[id]) else None);
        calls := calls - {id};
      }
    }

    /** `RpcCaller::call`: the callback is registered after the message was sent, if it could be sent. */
    method Call(ids: IdCounter, call: nat, sendable: bool) returns (id: Id)
      modifies this`calls, ids
      ensures id == NthId(old(ids.handedOut)) && ids.handedOut == old(ids.handedOut) + 1
      ensures calls == if sendable then old(calls)[id := call] else old(calls)
    {
      id := ids.Next();
      if sendable {
        calls := calls[id := call];
      }
    }
  }
}

/**
  From the bytes on the wire to the reader of a stream: framing and the service loop together.
 */
module RpcWire {
  import opened Wrappers
  import opened RpcDispatch
  import opened RpcService
  import M = MsgPack
  import E = RpcEndToEnd

  /** What a decoded value is as a message: its `PartialIncoming` view and its parameters. */
  type View = M.Value -> Frame

  function Viewed(view: View, msgs: seq<M.Value>): (fs: seq<Frame>)
    ensures |fs| == |msgs| && forall k :: 0 <= k < |msgs| ==> fs[k] == view(msgs[k])
  {
    seq(|msgs|, k requires 0 <= k < |msgs| => view(msgs[k]))
  }

  /** The messages that a reader makes of chunks of bytes. */
  function FramesOf(target: M.Target, view: View, chunks: seq<M.Bytes>): seq<Frame> {
    var frames := M.FedAll(target, M.Session([], [], false), chunks).frames;
    Viewed(view, seq(|frames|, k requires 0 <= k < |frames| => frames[k].obj))
  }

  /** Messages arrive as they were sent, however their bytes are cut. */
  lemma FramesArrive(target: M.Target, view: View, msgs: seq<M.Value>, chunks: seq<M.Bytes>)
    requires M.Consistent(target) && forall m | m in msgs :: M.WellFormed(m) && target.accepts(m)
    requires Concat(chunks) == M.EncodeAll(msgs)
    ensures FramesOf(target, view, chunks) == Viewed(view, msgs)
  {
    M.MessagesArrive(target, msgs, chunks);
    var frames := M.FedAll(target, M.Session([], [], false), chunks).frames;
    assert seq(|frames|, k requires 0 <= k < |frames| => frames[k].obj) == msgs;
  }

  /**
    A peer encodes messages; their bytes arrive in any chunks, are decoded, and dispatched in a
    run whose tasks interleave in any way. If the peer keeps to the protocol for a stream, its
    reader gets the segments of the messages, in order, and then the end.
   */
  lemma BytesToReader(target: M.Target, view: View, msgs: seq<M.Value>, chunks: seq<M.Bytes>,
                      user: MethodTable, es: seq<Event>, i: Id)
    requires M.Consistent(target) && forall m | m in msgs :: M.WellFormed(m) && target.accepts(m)
    requires Concat(chunks) == M.EncodeAll(msgs)
    requires Registered(user) && STREAM_DATA !in user && Legal(Start(Build(user).value), es)
    requires var s := Exec(Start(Build(user).value), es);
             NoWrap(s) && E.Follows(Start(Build(user).value), es, i) && s.sent == FramesOf(target, view, chunks)
    ensures var s := Exec(Start(Build(user).value), es);
            |s.reqs| <= |s.sent| && s.sent == Viewed(view, msgs) && E.Faithful(s, i)
  {
    FramesArrive(target, view, msgs, chunks);
    BuildIsBuilt(user);
    E.EndToEnd(Build(user).value, es, i);
  }
}

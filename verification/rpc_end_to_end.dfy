/**
  From the peer to the local reader: in every interleaving of `RpcService`, the segments that
  a peer sends for an announced stream reach the local end completely, in order and before
  its shutdown.
 */
module RpcEndToEnd {
  import opened Wrappers
  import opened RpcDispatch
  import opened RpcService
  import RpcCalls
  import RpcNames
  import RpcRequests
  import S = Streams

  predicate IsData(f: Frame, i: Id) {
    f.methodName == Some(STREAM_DATA) && f.params.StreamDataParams? && f.params.stream == i
  }

  predicate IsEnd(f: Frame, i: Id) {
    f.methodName == Some(STREAM_ENDED) && f.params.StreamEndedParams? && f.params.stream == i
  }

  predicate Concerns(f: Frame, i: Id) {
    IsData(f, i) || IsEnd(f, i)
  }

  function SegmentOf(f: Frame, i: Id): seq<Chunk> {
    if IsData(f, i) then [f.params.segment] else []
  }

  /** The segments for stream `i` in a sequence of messages. */
  function Segments(sent: seq<Frame>, i: Id): seq<Chunk> {
    if sent == [] then [] else Segments(sent[..|sent|-1], i) + SegmentOf(sent[|sent|-1], i)
  }

  predicate HasEnd(sent: seq<Frame>, i: Id) {
    exists r :: 0 <= r < |sent| && IsEnd(sent[r], i)
  }

  /** The peer speaks of stream `i` only after seeing it announced, and not after ending it. */
  predicate PeerKeeps(s: State, e: Event, i: Id) {
    e.PeerSends? && Concerns(e.frame, i) ==>
      i in s.started && s.started[i] < s.taken && !HasEnd(s.sent, i)
  }

  predicate Follows(s: State, es: seq<Event>, i: Id)
    requires Legal(s, es)
    decreases |es|
  {
    es == [] || (PeerKeeps(s, es[0], i) && Follows(Step(s, es[0]), es[1..], i))
  }

  // ------------------------------------------------------------------------
  // The invariant of one stream.
  // ------------------------------------------------------------------------

  datatype Track = Track(sent: seq<Frame>, reqs: seq<Req>, streams: S.State)

  function TrackOf(s: State): Track {
    Track(s.sent, s.reqs, s.streams)
  }

  /** The removal job of `i` is the one its end asked for; until it runs, nothing else ends the stream. */
  ghost predicate JobOk(t: Track, i: Id, r: nat)
    requires r < |t.reqs| <= |t.sent| && S.Inv(t.streams)
  {
    var status := t.reqs[r].status;
    && (status.InFlight? && status.job.kind == Removal(i) ==> IsEnd(t.sent[r], i))
    && (status.Opening? ==> !status.job.kind.Removal?)
    && (IsEnd(t.sent[r], i) ==>
          || (status.InFlight? && !status.ran && status.job.kind == Removal(i))
          || (i in t.streams.home && S.Ending(S.LaneOf(t.streams, t.streams.home[i]))))
  }

  /** What the peer may have said so far. */
  ghost predicate SpeechOk(t: Track, i: Id) {
    && (forall r :: 0 <= r < |t.sent| && Concerns(t.sent[r], i) ==> i in t.streams.home)
    && (forall r, q :: 0 <= r < q < |t.sent| && IsEnd(t.sent[r], i) ==> !Concerns(t.sent[q], i))
  }

  ghost predicate TrackOk(t: Track, i: Id) {
    && S.Inv(t.streams)
    && |t.reqs| <= |t.sent|
    && SpeechOk(t, i)
    && (i in t.streams.home ==>
          && t.streams.sinks[t.streams.home[i]].accepted == Segments(t.sent[..|t.reqs|], i)
          && (!HasEnd(t.sent[..|t.reqs|], i) ==> S.Open(t.streams, i)))
    && (forall r: nat | r < |t.reqs| :: JobOk(t, i, r))
  }

  lemma SpeechKeepsTrack(t: Track, i: Id, f: Frame)
    requires TrackOk(t, i)
    requires Concerns(f, i) ==> i in t.streams.home && !HasEnd(t.sent, i)
    ensures TrackOk(t.(sent := t.sent + [f]), i)
  {
    var t' := t.(sent := t.sent + [f]);
    assert t'.sent[..|t.reqs|] == t.sent[..|t.reqs|];
    forall r: nat | r < |t.reqs|
      ensures JobOk(t', i, r)
    {
      assert JobOk(t, i, r);
    }
  }

  /** A stream event that is no write to `i`, and removes `i` only once its end was dispatched. */
  lemma StreamStepKeepsTrack(t: Track, i: Id, e: S.Event)
    requires TrackOk(t, i) && S.Enabled(t.streams, e)
    requires e.Insert? ==> e.id !in t.streams.home && (e.id == i ==> forall f | f in t.sent :: !Concerns(f, i))
    requires S.WrittenBy(e, i) == []
    requires e == S.Remove(i) ==> HasEnd(t.sent[..|t.reqs|], i)
    ensures TrackOk(t.(streams := S.Step(t.streams, e)), i)
  {
    var t' := t.(streams := S.Step(t.streams, e));
    S.StepKeepsInv(t.streams, e);
    if i in t.streams.home {
      S.StepKeepsHome(t.streams, e, i);
      S.OnlyWritesAreAccepted(t.streams, e, t.streams.home[i]);
      if !HasEnd(t.sent[..|t.reqs|], i) {
        S.OneStepAccepts(t.streams, e, i);
      }
    } else if e == S.Insert(i) {
      NothingSaid(t.sent[..|t.reqs|], i);
      assert S.Open(t'.streams, i);
    } else {
      HomeOnlyGrowsByInsert(t.streams, e, i);
    }
    forall r: nat | r < |t.reqs|
      ensures JobOk(t', i, r)
    {
      assert JobOk(t, i, r);
      if i in t.streams.home && S.Ending(S.LaneOf(t.streams, t.streams.home[i])) {
        S.OneStepEnding(t.streams, e, t.streams.home[i]);
      } else if i !in t.streams.home {
        assert !IsEnd(t.sent[r], i);
      }
    }
  }

  lemma HomeOnlyGrowsByInsert(s: S.State, e: S.Event, i: Id)
    requires S.Enabled(s, e) && e != S.Insert(i) && i !in s.home
    ensures i !in S.Step(s, e).home
  {
  }

  lemma {:induction false} NothingSaid(sent: seq<Frame>, i: Id)
    requires forall f | f in sent :: !Concerns(f, i)
    ensures Segments(sent, i) == []
  {
    if sent != [] {
      assert sent[|sent|-1] in sent;
      NothingSaid(sent[..|sent|-1], i);
      assert SegmentOf(sent[|sent|-1], i) == [];
    }
  }

  lemma JobStays(t: Track, i: Id, q: Req, r: nat)
    requires r < |t.reqs| < |t.sent| && S.Inv(t.streams) && JobOk(t, i, r)
    ensures JobOk(t.(reqs := t.reqs + [q]), i, r)
  {
  }

  lemma NewJobIsNotAbout(t: Track, i: Id, q: Req)
    requires |t.reqs| < |t.sent| && S.Inv(t.streams) && !Concerns(t.sent[|t.reqs|], i)
    requires q.status.InFlight? ==> q.status.job.kind != Removal(i)
    requires q.status.Opening? ==> !q.status.job.kind.Removal?
    ensures JobOk(t.(reqs := t.reqs + [q]), i, |t.reqs|)
  {
  }

  /** A message that does not concern `i` leaves the jobs about it as they are. */
  lemma JobsStay(t: Track, i: Id, q: Req)
    requires |t.reqs| < |t.sent| && S.Inv(t.streams) && !Concerns(t.sent[|t.reqs|], i)
    requires forall r: nat | r < |t.reqs| :: JobOk(t, i, r)
    requires q.status.InFlight? ==> q.status.job.kind != Removal(i)
    requires q.status.Opening? ==> !q.status.job.kind.Removal?
    ensures forall r: nat | r < |t.reqs| + 1 :: JobOk(t.(reqs := t.reqs + [q]), i, r)
  {
    forall r: nat | r < |t.reqs| + 1
      ensures JobOk(t.(reqs := t.reqs + [q]), i, r)
    {
      if r < |t.reqs| {
        JobStays(t, i, q, r);
      } else {
        NewJobIsNotAbout(t, i, q);
      }
    }
  }

  lemma NothingMore(sent: seq<Frame>, n: nat, i: Id)
    requires n < |sent| && !Concerns(sent[n], i)
    ensures Segments(sent[..n + 1], i) == Segments(sent[..n], i) && (HasEnd(sent[..n + 1], i) <==> HasEnd(sent[..n], i))
  {
    SegmentsSnoc(sent, n, i);
    if HasEnd(sent[..n], i) {
      var r :| 0 <= r < n && IsEnd(sent[..n][r], i);
      assert IsEnd(sent[..n + 1][r], i);
    }
    if HasEnd(sent[..n + 1], i) {
      var r :| 0 <= r < n + 1 && IsEnd(sent[..n + 1][r], i);
      assert IsEnd(sent[..n][r], i);
    }
  }

  /** Dispatching a message that does not concern `i`. */
  lemma OtherFrameKeepsTrack(t: Track, i: Id, q: Req)
    requires TrackOk(t, i) && |t.reqs| < |t.sent|
    requires !Concerns(t.sent[|t.reqs|], i)
    requires q.status.InFlight? ==> q.status.job.kind != Removal(i)
    requires q.status.Opening? ==> !q.status.job.kind.Removal?
    ensures TrackOk(t.(reqs := t.reqs + [q]), i)
  {
    var t' := t.(reqs := t.reqs + [q]);
    var n := |t.reqs|;
    assert t'.streams == t.streams && t'.sent == t.sent;
    NothingMore(t.sent, n, i);
    JobsStay(t, i, q);
  }

  lemma SegmentsSnoc(sent: seq<Frame>, n: nat, i: Id)
    requires n < |sent|
    ensures Segments(sent[..n + 1], i) == Segments(sent[..n], i) + SegmentOf(sent[n], i)
  {
    assert sent[..n + 1][..n] == sent[..n];
  }

  /** Before the data that is dispatched next, the peer had not ended the stream. */
  lemma StillOpen(t: Track, i: Id)
    requires TrackOk(t, i) && |t.reqs| < |t.sent| && IsData(t.sent[|t.reqs|], i)
    ensures i in t.streams.home && S.Open(t.streams, i)
    ensures forall r :: 0 <= r < |t.reqs| ==> !IsEnd(t.sent[r], i)
  {
    assert !HasEnd(t.sent[..|t.reqs|], i);
  }

  /** While the stream has not been ended, no job is about what becomes of it. */
  lemma BeforeAnyEnd(t: Track, i: Id, q: Req, streams: S.State, r: nat)
    requires r < |t.reqs| < |t.sent| && S.Inv(t.streams) && S.Inv(streams)
    requires JobOk(t, i, r) && !IsEnd(t.sent[r], i)
    ensures JobOk(t.(reqs := t.reqs + [q], streams := streams), i, r)
  {
  }

  /** Dispatching data for `i`: the stream is open, so the segment is accepted. */
  lemma DataKeepsTrack(t: Track, i: Id, q: Req)
    requires TrackOk(t, i) && |t.reqs| < |t.sent|
    requires IsData(t.sent[|t.reqs|], i) && !q.status.InFlight? && !q.status.Opening?
    ensures TrackOk(t.(reqs := t.reqs + [q], streams := S.Step(t.streams, S.Write(i, t.sent[|t.reqs|].params.segment))), i)
  {
    var n := |t.reqs|;
    var w := S.Write(i, t.sent[n].params.segment);
    var t' := t.(reqs := t.reqs + [q], streams := S.Step(t.streams, w));
    StillOpen(t, i);
    S.StepKeepsInv(t.streams, w);
    S.OneStepAccepts(t.streams, w, i);
    SegmentsSnoc(t.sent, n, i);
    assert !HasEnd(t.sent[..n + 1], i);
    forall r: nat | r < |t'.reqs|
      ensures JobOk(t', i, r)
    {
      if r < n {
        BeforeAnyEnd(t, i, q, t'.streams, r);
      }
    }
  }

  /** Dispatching the end of `i` spawns its removal. */
  lemma EndKeepsTrack(t: Track, i: Id, q: Req)
    requires TrackOk(t, i) && |t.reqs| < |t.sent|
    requires IsEnd(t.sent[|t.reqs|], i) && q.status.InFlight? && !q.status.ran && q.status.job.kind == Removal(i)
    ensures TrackOk(t.(reqs := t.reqs + [q]), i)
  {
    var t' := t.(reqs := t.reqs + [q]);
    var n := |t.reqs|;
    assert t.sent[..n + 1][..n] == t.sent[..n];
    assert Segments(t.sent[..n + 1], i) == Segments(t.sent[..n], i) + [];
    assert IsEnd(t.sent[..n + 1][n], i);
    forall r: nat | r < |t'.reqs|
      ensures JobOk(t', i, r)
    {
      if r < n {
        assert JobOk(t, i, r);
      }
    }
  }

  /** A job moves on, other than by running a removal. */
  lemma StatusKeepsTrack(t: Track, i: Id, r: nat, q: Req)
    requires TrackOk(t, i) && r < |t.reqs|
    requires q.status.InFlight? && q.status.job.kind == Removal(i) ==> IsEnd(t.sent[r], i)
    requires q.status.Opening? ==> !q.status.job.kind.Removal?
    requires IsEnd(t.sent[r], i) ==> i in t.streams.home && S.Ending(S.LaneOf(t.streams, t.streams.home[i]))
    ensures TrackOk(t.(reqs := t.reqs[r := q]), i)
  {
    var t' := t.(reqs := t.reqs[r := q]);
    forall p: nat | p < |t'.reqs|
      ensures JobOk(t', i, p)
    {
      assert JobOk(t, i, p);
    }
  }

  // ------------------------------------------------------------------------
  // All runs.
  // ------------------------------------------------------------------------

  ghost predicate Inv(s: State, i: Id) {
    && Built(s.methods)
    && RpcRequests.ReqsOk(s)
    && RpcNames.Inv(s)
    && TrackOk(TrackOf(s), i)
  }

  /** What `build` makes of a message decides how it concerns stream `i`. */
  lemma OutcomeOf(s: State, f: Frame, ok: bool, i: Id)
    requires Built(s.methods)
    ensures var o := Dispatched(s.methods, s.calls, f, ok);
            && (IsData(f, i) <==> o.Wrote? && o.stream == i)
            && (o.Wrote? && o.stream == i ==> o.segment == f.params.segment)
            && (IsEnd(f, i) <==> o.Spawned? && o.job.kind == Removal(i))
            && (o.Opened? ==> o.job.kind.Callback?)
  {
  }

  lemma DispatchKeepsTrack(s: State, ok: bool, i: Id)
    requires Inv(s, i) && Enabled(s, Dispatch(ok))
    ensures TrackOk(TrackOf(DoDispatch(s, ok)), i)
  {
    var f := s.sent[|s.reqs|];
    var o := Dispatched(s.methods, s.calls, f, ok);
    OutcomeOf(s, f, ok, i);
    ApplyKeepsTrack(s, f, o, i);
  }

  /** What applying an outcome changes about streams. */
  lemma ApplyTrack(s: State, f: Frame, o: Outcome) returns (q: Req)
    ensures TrackOf(Apply(s, f, o)) ==
            Track(s.sent, s.reqs + [q], if o.Wrote? then S.Step(s.streams, S.Write(o.stream, o.segment)) else s.streams)
    ensures q.status.InFlight? <==> o.Spawned?
    ensures q.status.InFlight? ==> !q.status.ran && q.status.job == o.job
    ensures q.status.Opening? ==> o.Opened? && q.status.job == o.job
  {
    q := Apply(s, f, o).reqs[|s.reqs|];
  }

  lemma ApplyKeepsTrack(s: State, f: Frame, o: Outcome, i: Id)
    requires TrackOk(TrackOf(s), i) && |s.reqs| < |s.sent| && f == s.sent[|s.reqs|]
    requires IsData(f, i) <==> o.Wrote? && o.stream == i
    requires o.Wrote? && o.stream == i ==> o.segment == f.params.segment
    requires IsEnd(f, i) <==> o.Spawned? && o.job.kind == Removal(i)
    requires o.Opened? ==> o.job.kind.Callback?
    ensures TrackOk(TrackOf(Apply(s, f, o)), i)
  {
    var q := ApplyTrack(s, f, o);
    var t := TrackOf(s);
    if IsData(f, i) {
      DataKeepsTrack(t, i, q);
    } else if IsEnd(f, i) {
      EndKeepsTrack(t, i, q);
    } else {
      OtherFrameKeepsTrack(t, i, q);
      if o.Wrote? {
        StreamStepKeepsTrack(t.(reqs := t.reqs + [q]), i, S.Write(o.stream, o.segment));
      }
    }
  }

  lemma RunJobKeepsTrack(s: State, r: nat, i: Id)
    requires Inv(s, i) && Enabled(s, RunJob(r))
    ensures TrackOk(TrackOf(DoRunJob(s, r)), i)
  {
    var job, t := s.reqs[r].status.job, TrackOf(s);
    var q := s.reqs[r].(status := InFlight(job, true));
    assert JobOk(t, i, r);
    if job.kind.Removal? {
      var e := S.Remove(job.kind.stream);
      if job.kind.stream == i {
        assert IsEnd(t.sent[..|t.reqs|][r], i);
        RemovalEnds(t, i);
      }
      StreamStepKeepsTrack(t, i, e);
      var t1 := t.(streams := S.Step(t.streams, e));
      assert JobOk(t1, i, r);
      StatusKeepsTrack(t1, i, r, q);
    } else {
      StatusKeepsTrack(t, i, r, q);
    }
  }

  lemma RemovalEnds(t: Track, i: Id)
    requires TrackOk(t, i) && HasEnd(t.sent, i)
    ensures i in t.streams.home && i in S.Step(t.streams, S.Remove(i)).home
    ensures S.Inv(S.Step(t.streams, S.Remove(i)))
    ensures S.Step(t.streams, S.Remove(i)).home[i] == t.streams.home[i]
    ensures S.Ending(S.LaneOf(S.Step(t.streams, S.Remove(i)), t.streams.home[i]))
  {
    S.StepKeepsInv(t.streams, S.Remove(i));
  }

  lemma StepKeepsTrack(s: State, e: Event, i: Id)
    requires Inv(s, i) && Enabled(s, e) && PeerKeeps(s, e, i)
    ensures TrackOk(TrackOf(Step(s, e)), i)
  {
    var t := TrackOf(s);
    match e
    case PeerSends(f) => SpeechKeepsTrack(t, i, f);
    case Dispatch(ok) => DispatchKeepsTrack(s, ok, i);
    case RunJob(r) => RunJobKeepsTrack(s, r, i);
    case Register =>
      RpcNames.RegisterKeepsNames(RpcNames.NamesOf(s));
      StreamStepKeepsTrack(t, i, S.Insert(s.pc.streams[0]));
    case StreamTask(x) => StreamStepKeepsTrack(t, i, x);
    case SendReply => ProgressKeepsTrack(s, e, i, s.pc.req);
    case Announce => ProgressKeepsTrack(s, e, i, s.pc.req);
    case Spawn => ProgressKeepsTrack(s, e, i, s.pc.req);
    case FinishJob(r, _) => ProgressKeepsTrack(s, e, i, r);
    case _ =>
  }

  /** A message moves on towards its answer. */
  lemma ProgressKeepsTrack(s: State, e: Event, i: Id, r: nat)
    requires Inv(s, i) && Enabled(s, e)
    requires ((e.SendReply? || e.Announce? || e.Spawn?) && r == s.pc.req) || (e.FinishJob? && r == e.req)
    ensures TrackOk(TrackOf(Step(s, e)), i)
  {
    assert JobOk(TrackOf(s), i, r);
    StatusKeepsTrack(TrackOf(s), i, r, Step(s, e).reqs[r]);
  }

  lemma ApplyKeepsMethods(s: State, f: Frame, o: Outcome)
    ensures Apply(s, f, o).methods == s.methods
  {
  }

  lemma MethodsStay(s: State, e: Event)
    requires Enabled(s, e)
    ensures Step(s, e).methods == s.methods
  {
    if e.Dispatch? {
      ApplyKeepsMethods(s, s.sent[|s.reqs|], Dispatched(s.methods, s.calls, s.sent[|s.reqs|], e.ok));
    }
  }

  lemma {:induction false} RunKeepsInv(s: State, es: seq<Event>, i: Id)
    requires Inv(s, i) && Legal(s, es) && NoWrap(Exec(s, es)) && Follows(s, es, i)
    ensures Inv(Exec(s, es), i)
    decreases |es|
  {
    if es != [] {
      var s' := Step(s, es[0]);
      RpcNames.OwnersGrowAlong(s', es[1..]);
      MethodsStay(s, es[0]);
      RpcRequests.StepKeepsReqs(s, es[0]);
      RpcNames.StepKeepsInv(s, es[0]);
      StepKeepsTrack(s, es[0], i);
      RunKeepsInv(s', es[1..], i);
    }
  }

  // ------------------------------------------------------------------------
  // What the invariant means.
  // ------------------------------------------------------------------------

  lemma {:induction false} SegmentsSplit(a: seq<Frame>, b: seq<Frame>, i: Id)
    ensures Segments(a + b, i) == Segments(a, i) + Segments(b, i)
    decreases |b|
  {
    if b == [] {
      assert a + b == a;
    } else {
      SegmentsSplit(a, b[..|b|-1], i);
      assert (a + b)[..|a + b| - 1] == a + b[..|b|-1];
      Assoc(Segments(a, i), Segments(b[..|b|-1], i), SegmentOf(b[|b|-1], i));
    }
  }

  /** The removal that the end of `i` asked for has happened. */
  predicate EndCarriedOut(s: State, i: Id) {
    exists r :: 0 <= r < |s.reqs| <= |s.sent| && IsEnd(s.sent[r], i) &&
      !(s.reqs[r].status.InFlight? && !s.reqs[r].status.ran)
  }

  /** What stream `i` looks like from outside, in terms of what the peer sent for it. */
  ghost predicate Faithful(s: State, i: Id)
    requires |s.reqs| <= |s.sent|
  {
    if i !in s.streams.home then
      Segments(s.sent, i) == []
    else
      var h := s.streams.home[i];
      && h < |s.streams.sinks|
      && var l := S.LaneOf(s.streams, h);
         // nothing is lost, reordered or repeated on the way
         && (!l.sink.failed ==>
               l.sink.delivered + S.Pending(l) + Segments(s.sent[|s.reqs|..], i) == Segments(s.sent, i))
         // not even by a broken pipe
         && S.Embeds(l.sink.delivered, Segments(s.sent, i))
         // the reader sees the end only after all that was sent
         && (l.sink.shut > 0 ==> HasEnd(s.sent, i) && l.sink.consumed == Segments(s.sent, i))
         // ... and does see it
         && (EndCarriedOut(s, i) && h !in s.streams.tasks ==>
               l.sink.shut == 1 && (!l.sink.failed ==> l.sink.delivered == Segments(s.sent, i)))
  }

  lemma AfterEndNothing(sent: seq<Frame>, i: Id, n: nat)
    requires n <= |sent| && HasEnd(sent[..n], i)
    requires forall r, q :: 0 <= r < q < |sent| && IsEnd(sent[r], i) ==> !Concerns(sent[q], i)
    ensures Segments(sent[n..], i) == []
  {
    var r :| 0 <= r < n && IsEnd(sent[..n][r], i);
    forall f | f in sent[n..]
      ensures !Concerns(f, i)
    {
      var q :| 0 <= q < |sent[n..]| && sent[n..][q] == f;
      assert f == sent[n + q] && IsEnd(sent[r], i);
    }
    NothingSaid(sent[n..], i);
  }

  lemma SplitAt(sent: seq<Frame>, n: nat, i: Id)
    requires n <= |sent|
    ensures Segments(sent, i) == Segments(sent[..n], i) + Segments(sent[n..], i)
  {
    assert sent == sent[..n] + sent[n..];
    SegmentsSplit(sent[..n], sent[n..], i);
  }

  /** What was accepted and what is still to be dispatched make up what was sent. */
  lemma SentIsAccepted(t: Track, i: Id)
    requires TrackOk(t, i) && i in t.streams.home
    ensures Segments(t.sent, i) == t.streams.sinks[t.streams.home[i]].accepted + Segments(t.sent[|t.reqs|..], i)
    ensures HasEnd(t.sent[..|t.reqs|], i) ==> Segments(t.sent, i) == t.streams.sinks[t.streams.home[i]].accepted
  {
    SplitAt(t.sent, |t.reqs|, i);
    if HasEnd(t.sent[..|t.reqs|], i) {
      AfterEndNothing(t.sent, i, |t.reqs|);
    }
  }

  /** Accepted chunks are delivered or pending; a broken pipe leaves an embedded part of them. */
  lemma LaneAccounts(l: S.Lane, h: S.Half)
    requires S.LaneOk(l, h)
    ensures l.sink.accepted == l.sink.consumed + S.Pending(l)
    ensures S.Embeds(l.sink.delivered, l.sink.accepted)
    ensures l.sink.shut > 0 ==> l.sink.consumed == l.sink.accepted && l.rec.None?
    ensures S.Ending(l) && l.task.None? ==> l.sink.shut == 1 && l.sink.consumed == l.sink.accepted
  {
    assert l.sink.accepted == l.sink.consumed + S.Pending(l);
    S.EmbedsSkip(l.sink.delivered, l.sink.consumed, S.Pending(l));
  }

  lemma EndIsEnding(t: Track, i: Id, r: nat)
    requires TrackOk(t, i) && r < |t.reqs| && IsEnd(t.sent[r], i)
    requires !(t.reqs[r].status.InFlight? && !t.reqs[r].status.ran)
    ensures i in t.streams.home && HasEnd(t.sent[..|t.reqs|], i)
    ensures S.Ending(S.LaneOf(t.streams, t.streams.home[i]))
  {
    assert JobOk(t, i, r);
    assert IsEnd(t.sent[..|t.reqs|][r], i);
  }

  lemma LaneIsFaithful(s: State, i: Id)
    requires TrackOk(TrackOf(s), i) && i in s.streams.home
    ensures Faithful(s, i)
  {
    var n, h := |s.reqs|, s.streams.home[i];
    var l := S.LaneOf(s.streams, h);
    SentIsAccepted(TrackOf(s), i);
    LaneAccounts(l, h);
    S.EmbedsSkip(l.sink.delivered, l.sink.accepted, Segments(s.sent[n..], i));
    if l.sink.shut > 0 {
      assert HasEnd(s.sent[..n], i);
      var r :| 0 <= r < n && IsEnd(s.sent[..n][r], i);
      assert IsEnd(s.sent[r], i);
    }
    if EndCarriedOut(s, i) {
      var r :| 0 <= r < n && IsEnd(s.sent[r], i) && !(s.reqs[r].status.InFlight? && !s.reqs[r].status.ran);
      EndIsEnding(TrackOf(s), i, r);
    }
  }

  lemma InvIsFaithful(s: State, i: Id)
    requires Inv(s, i)
    ensures |s.reqs| <= |s.sent| && Faithful(s, i)
  {
    if i in s.streams.home {
      LaneIsFaithful(s, i);
    } else {
      NothingSaid(s.sent, i);
    }
  }

  /**
    End to end: for every method table and every run in which the peer speaks of stream `i`
    only between its announcement and its end.
   */
  lemma EndToEnd(methods: MethodTable, es: seq<Event>, i: Id)
    requires Built(methods) && Legal(Start(methods), es)
    requires NoWrap(Exec(Start(methods), es)) && Follows(Start(methods), es, i)
    ensures |Exec(Start(methods), es).reqs| <= |Exec(Start(methods), es).sent|
    ensures Faithful(Exec(Start(methods), es), i)
  {
    RunKeepsInv(Start(methods), es, i);
    InvIsFaithful(Exec(Start(methods), es), i);
  }

  function Lift(es: seq<S.Event>): (r: seq<Event>)
    ensures |r| == |es| && forall k :: 0 <= k < |es| ==> r[k] == StreamTask(es[k])
  {
    seq(|es|, k requires 0 <= k < |es| => StreamTask(es[k]))
  }

  lemma {:induction false} LiftRuns(s: State, es: seq<S.Event>, h: S.Half)
    requires S.Legal(s.streams, es) && forall e | e in es :: S.TaskEvent(e, h)
    ensures Legal(s, Lift(es)) && Exec(s, Lift(es)) == s.(streams := S.Exec(s.streams, es))
    decreases |es|
  {
    if es != [] {
      assert es[0] in es;
      LiftRuns(s.(streams := S.Step(s.streams, es[0])), es[1..], h);
      assert Lift(es)[1..] == Lift(es[1..]);
    }
  }

  /** Once the end of a stream was dispatched, its job and its write loop can always finish it. */
  lemma EndedStreamCanClose(s: State, i: Id) returns (es: seq<Event>)
    requires Inv(s, i) && HasEnd(s.sent[..|s.reqs|], i)
    ensures i in s.streams.home
    ensures Legal(s, es) && forall e | e in es :: e.RunJob? || e.StreamTask?
    ensures var k := Exec(s, es).streams.sinks;
            var h := s.streams.home[i];
            && h < |k| && k[h].shut == 1
            && k[h].consumed == Segments(s.sent, i)
            && (!s.streams.sinks[h].failed ==> k[h].delivered == Segments(s.sent, i))
  {
    var r: nat :| 0 <= r < |s.reqs| && IsEnd(s.sent[..|s.reqs|][r], i);
    assert JobOk(TrackOf(s), i, r) && IsEnd(s.sent[r], i) && i in s.streams.home;
    var h := s.streams.home[i];
    SentIsAccepted(TrackOf(s), i);
    if S.Ending(S.LaneOf(s.streams, h)) {
      es := CloseAlone(s, h);
    } else {
      var s1 := Step(s, RunJob(r));
      RunJobEnds(s, r, i);
      es := CloseAlone(s1, h);
      RpcCalls.Prepend(s, RunJob(r), es);
      es := [RunJob(r)] + es;
    }
  }

  lemma RunJobEnds(s: State, r: nat, i: Id)
    requires TrackOk(TrackOf(s), i) && Enabled(s, RunJob(r)) && IsEnd(s.sent[r], i)
    requires s.reqs[r].status.job.kind == Removal(i)
    ensures i in s.streams.home && S.Inv(Step(s, RunJob(r)).streams)
    ensures var h := s.streams.home[i];
            && h < |Step(s, RunJob(r)).streams.sinks|
            && Step(s, RunJob(r)).streams.sinks[h] == s.streams.sinks[h]
            && S.Ending(S.LaneOf(Step(s, RunJob(r)).streams, h))
  {
    RemovalEnds(TrackOf(s), i);
  }

  lemma CloseAlone(s: State, h: S.Half) returns (es: seq<Event>)
    requires S.Inv(s.streams) && h < |s.streams.sinks| && S.Ending(S.LaneOf(s.streams, h))
    ensures Legal(s, es) && forall e | e in es :: e.StreamTask?
    ensures var k := Exec(s, es).streams.sinks;
            && h < |k| && k[h].shut == 1 && k[h].consumed == s.streams.sinks[h].accepted
            && (!s.streams.sinks[h].failed ==> k[h].delivered == s.streams.sinks[h].accepted)
  {
    var tasks := S.FinishAlone(s.streams, h);
    LiftRuns(s, tasks, h);
    es := Lift(tasks);
    var s' := S.Exec(s.streams, tasks);
    assert S.LaneOk(S.LaneOf(s', h), h);
  }
}

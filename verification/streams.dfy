/**
  The stream table of cli/src/rpc.rs: `Streams::{insert, write, remove}` and the spawned
  `write_loop`. Every region that holds the mutex is one atomic step, every `write_all`
  is one step and every `shutdown` is one step; a run is any interleaving of them.
 */
module Streams {
  import opened Wrappers

  type Id = nat
  /** The index of a write half in `State.sinks`; halves are never reused. */
  type Half = nat
  type Chunk = seq<byte>

  datatype StreamRec = StreamRec(write: Option<Half>, q: seq<Chunk>, ended: bool)

  /** What a write loop does after it gives the mutex back. */
  datatype Next = Drain(items: seq<Chunk>) | HandBack | Break

  // ------------------------------------------------------------------------
  // The locked regions, as functions of the table.
  // ------------------------------------------------------------------------

  function Inserted(table: map<Id, StreamRec>, id: Id, half: Half): map<Id, StreamRec> {
    table[id := StreamRec(Some(half), [], false)]
  }

  /** The table after a write, and the half that a new write loop takes along. */
  function Written(table: map<Id, StreamRec>, id: Id, buf: Chunk): (map<Id, StreamRec>, Option<Half>) {
    if id in table then
      (table[id := table[id].(q := table[id].q + [buf], write := None)], table[id].write)
    else
      (table, None)
  }

  /** The table after a removal, and the half the caller has to shut down. */
  function Removed(table: map<Id, StreamRec>, id: Id): (map<Id, StreamRec>, Option<Half>) {
    if id !in table then (table, None)
    else if table[id].write.Some? then (table - {id}, table[id].write)
    else (table[id := table[id].(ended := true)], None)
  }

  /** One pass of a write loop through its locked region, with `items` left in its vector. */
  function Looped(table: map<Id, StreamRec>, id: Id, half: Half, items: seq<Chunk>): (map<Id, StreamRec>, Next) {
    if id !in table then (table, Break)
    else if table[id].q == [] then
      if table[id].ended then (table - {id}, Break)
      else (table[id := table[id].(write := Some(half))], HandBack)
    else
      (table[id := table[id].(q := items)], Drain(table[id].q))
  }

  // ------------------------------------------------------------------------
  // The same regions as they run: a table updated in place.
  // ------------------------------------------------------------------------

  class StreamTable {
    var table: map<Id, StreamRec>

    constructor ()
      ensures table == map[]
    {
      table := map[];
    }

    method Insert(id: Id, half: Half)
      modifies this
      ensures table == Inserted(old(table), id, half)
    {
      table := table[id := StreamRec(Some(half), [], false)];
    }

    method Write(id: Id, buf: Chunk) returns (spawned: Option<Half>)
      modifies this
      ensures (table, spawned) == Written(old(table), id, buf)
    {
      spawned := None;
      if id in table {
        var rec := table[id];
        rec := rec.(q := rec.q + [buf]);
        if rec.write.Some? {
          spawned := rec.write;
          rec := rec.(write := None);
        }
        table := table[id := rec];
      }
    }

    method Remove(id: Id) returns (taken: Option<Half>)
      modifies this
      ensures (table, taken) == Removed(old(table), id)
    {
      taken := None;
      if id in table {
        if table[id].write.Some? {
          taken := table[id].write;
          table := table - {id};
        } else {
          table := table[id := table[id].(ended := true)];
        }
      }
    }

    method LoopPass(id: Id, half: Half, items: seq<Chunk>) returns (next: Next)
      modifies this
      ensures (table, next) == Looped(old(table), id, half, items)
    {
      if id !in table {
        return Break;
      }
      var rec := table[id];
      if rec.q == [] {
        if rec.ended {
          table := table - {id};
          return Break;
        }
        table := table[id := rec.(write := Some(half))];
        return HandBack;
      }
      table := table[id := rec.(q := items)];
      return Drain(rec.q);
    }
  }

  /** A failed `write_all` may have passed on a prefix of its chunk. */
  function Cut(chunk: Chunk, n: nat): seq<Chunk>
    requires n <= |chunk|
  {
    if n == 0 then [] else [chunk[..n]]
  }

  /** The writing end of a pipe; `delivered` is what its reader gets. */
  class WriteHalf {
    var delivered: seq<Chunk>

    /** `broken` is how much got through before the pipe broke, if it did. */
    method WriteAll(item: Chunk, broken: Option<nat>) returns (ok: bool)
      requires broken.Some? ==> broken.value <= |item|
      modifies this
      ensures ok == broken.None?
      ensures delivered == old(delivered) + (if broken.None? then [item] else Cut(item, broken.value))
    {
      if broken.None? {
        delivered := delivered + [item];
        return true;
      }
      delivered := delivered + Cut(item, broken.value);
      return false;
    }
  }

  /** One outcome for each item: written, or broken off somewhere in it. */
  predicate Outcomes(items: seq<Chunk>, outcomes: seq<Option<nat>>) {
    |outcomes| == |items| && forall i :: 0 <= i < |items| && outcomes[i].Some? ==> outcomes[i].value <= |items[i]|
  }

  /** What a drain delivers: everything up to the first broken write, then nothing. */
  function Drained(items: seq<Chunk>, outcomes: seq<Option<nat>>): seq<Chunk>
    requires Outcomes(items, outcomes)
  {
    if items == [] then []
    else if outcomes[0].Some? then Cut(items[0], outcomes[0].value)
    else [items[0]] + Drained(items[1..], outcomes[1..])
  }

  /** The loop over a swapped-out batch; a failed write leaves this loop only. */
  method DrainBatch(w: WriteHalf, items: seq<Chunk>, outcomes: seq<Option<nat>>)
    requires Outcomes(items, outcomes)
    modifies w
    ensures w.delivered == old(w.delivered) + Drained(items, outcomes)
  {
    for i := 0 to |items|
      invariant w.delivered + Drained(items[i..], outcomes[i..]) == old(w.delivered) + Drained(items, outcomes)
    {
      ghost var before, rest := w.delivered, Drained(items[i + 1..], outcomes[i + 1..]);
      assert items[i..][1..] == items[i + 1..] && outcomes[i..][1..] == outcomes[i + 1..];
      var ok := w.WriteAll(items[i], outcomes[i]);
      if !ok {
        return;
      }
      assert before + ([items[i]] + rest) == (before + [items[i]]) + rest;
    }
  }

  // ------------------------------------------------------------------------
  // The protocol: table, tasks and sinks.
  // ------------------------------------------------------------------------

  /** A spawned task; it owns the half it is keyed by. */
  datatype Task =
    | Loop(id: Id, batch: seq<Chunk>)
    | Closing

  /**
    The far side of a write half. `accepted` are the chunks queued for the stream so far,
    `consumed` those a loop has taken out of its batch, `delivered` what reached the reader.
   */
  datatype Sink = Sink(
    id: Id,
    accepted: seq<Chunk>,
    consumed: seq<Chunk>,
    delivered: seq<Chunk>,
    failed: bool,
    shut: nat
  )

  datatype State = State(
    table: map<Id, StreamRec>,
    tasks: map<Half, Task>,
    sinks: seq<Sink>,
    home: map<Id, Half>
  )

  datatype Event =
    | Insert(id: Id)
    | Write(id: Id, buf: Chunk)
    | Remove(id: Id)
    | Pass(half: Half)
    | Deliver(half: Half)
    | Fail(half: Half, n: nat)
    | Shut(half: Half)

  const INIT := State(map[], map[], [], map[])

  predicate Looping(s: State, h: Half) {
    h in s.tasks && s.tasks[h].Loop? && h < |s.sinks|
  }

  predicate Enabled(s: State, e: Event) {
    match e
    case Insert(_) => true
    case Write(_, _) => true
    case Remove(_) => true
    case Pass(h) => Looping(s, h) && s.tasks[h].batch == []
    case Deliver(h) => Looping(s, h) && s.tasks[h].batch != []
    case Fail(h, n) => Looping(s, h) && s.tasks[h].batch != [] && n <= |s.tasks[h].batch[0]|
    case Shut(h) => h in s.tasks && s.tasks[h].Closing? && h < |s.sinks|
  }

  function Accept(s: State, id: Id, buf: Chunk): seq<Sink> {
    if id in s.table && id in s.home && s.home[id] < |s.sinks| then
      var h := s.home[id];
      s.sinks[h := s.sinks[h].(accepted := s.sinks[h].accepted + [buf])]
    else
      s.sinks
  }

  function Step(s: State, e: Event): State
    requires Enabled(s, e)
  {
    match e
    case Insert(id) =>
      State(Inserted(s.table, id, |s.sinks|), s.tasks,
            s.sinks + [Sink(id, [], [], [], false, 0)], s.home[id := |s.sinks|])
    case Write(id, buf) =>
      var (table, spawned) := Written(s.table, id, buf);
      State(table, if spawned.Some? then s.tasks[spawned.value := Loop(id, [])] else s.tasks,
            Accept(s, id, buf), s.home)
    case Remove(id) =>
      var (table, taken) := Removed(s.table, id);
      s.(table := table, tasks := if taken.Some? then s.tasks[taken.value := Closing] else s.tasks)
    case Pass(h) =>
      var id := s.tasks[h].id;
      var (table, next) := Looped(s.table, id, h, s.tasks[h].batch);
      s.(table := table,
         tasks := match next
           case Drain(items) => s.tasks[h := Loop(id, items)]
           case HandBack => s.tasks - {h}
           case Break => s.tasks[h := Closing])
    case Deliver(h) =>
      var t, k := s.tasks[h], s.sinks[h];
      s.(tasks := s.tasks[h := t.(batch := t.batch[1..])],
         sinks := s.sinks[h := k.(consumed := k.consumed + [t.batch[0]], delivered := k.delivered + [t.batch[0]])])
    case Fail(h, n) =>
      var t, k := s.tasks[h], s.sinks[h];
      s.(tasks := s.tasks[h := t.(batch := [])],
         sinks := s.sinks[h := k.(consumed := k.consumed + t.batch,
                                  delivered := k.delivered + Cut(t.batch[0], n),
                                  failed := true)])
    case Shut(h) =>
      s.(tasks := s.tasks - {h}, sinks := s.sinks[h := s.sinks[h].(shut := s.sinks[h].shut + 1)])
  }

  /** `es` can happen from `s`, in this order. */
  predicate Legal(s: State, es: seq<Event>)
    decreases |es|
  {
    es == [] || (Enabled(s, es[0]) && Legal(Step(s, es[0]), es[1..]))
  }

  function Exec(s: State, es: seq<Event>): State
    requires Legal(s, es)
    decreases |es|
  {
    if es == [] then s else Exec(Step(s, es[0]), es[1..])
  }

  /** No stream id is inserted while the table still has a record for it. */
  predicate Fresh(s: State, es: seq<Event>)
    requires Legal(s, es)
    decreases |es|
  {
    es == [] || ((es[0].Insert? ==> es[0].id !in s.table) && Fresh(Step(s, es[0]), es[1..]))
  }

  // ------------------------------------------------------------------------
  // What every interleaving keeps.
  // ------------------------------------------------------------------------

  /** Each chunk of `d` is a prefix of its own chunk of `a`, in the order of `a`. */
  ghost predicate Embeds(d: seq<Chunk>, a: seq<Chunk>)
    decreases |a|
  {
    if d == [] then true
    else if a == [] then false
    else
      || (d[|d|-1] <= a[|a|-1] && Embeds(d[..|d|-1], a[..|a|-1]))
      || Embeds(d, a[..|a|-1])
  }

  /** All that one stream consists of: its sink, its record and the task that owns its half. */
  datatype Lane = Lane(sink: Sink, rec: Option<StreamRec>, task: Option<Task>)

  function Get<X, Y>(m: map<X, Y>, x: X): Option<Y> {
    if x in m then Some(m[x]) else None
  }

  /** Whether the record of `h`'s id, if there is one, is about `h`: the stream inserted last has the id. */
  predicate Named(s: State, h: Half)
    requires h < |s.sinks|
  {
    Get(s.home, s.sinks[h].id) == Some(h)
  }

  function LaneOf(s: State, h: Half): Lane
    requires h < |s.sinks|
  {
    Lane(s.sinks[h], if Named(s, h) then Get(s.table, s.sinks[h].id) else None, Get(s.tasks, h))
  }

  datatype Phase = Idle | Running | Finishing | Closed

  function PhaseOf(l: Lane): Phase {
    if l.rec.Some? then
      if l.rec.value.write.Some? then Idle else Running
    else
      if l.task.Some? then Finishing else Closed
  }

  /** Where everything accepted for a stream is, and who owns its half `h`. */
  ghost predicate LaneOk(l: Lane, h: Half) {
    var k := l.sink;
    && Embeds(k.delivered, k.consumed)
    && (!k.failed ==> k.delivered == k.consumed)
    && match PhaseOf(l)
       case Idle =>
         l.rec == Some(StreamRec(Some(h), [], false)) && l.task == None && k.shut == 0 && k.consumed == k.accepted
       case Running =>
         && l.task.Some? && l.task.value.Loop? && l.task.value.id == k.id && k.shut == 0
         && k.accepted == k.consumed + (l.task.value.batch + l.rec.value.q)
       case Finishing =>
         l.task == Some(Closing) && k.shut == 0 && k.consumed == k.accepted
       case Closed =>
         k.shut == 1 && k.consumed == k.accepted
  }

  /** Every id in use names a half of that id. */
  ghost predicate NamesOk(s: State) {
    && (forall h: Half | h in s.tasks :: h < |s.sinks|)
    && (forall id | id in s.table :: id in s.home)
    && (forall id | id in s.home :: s.home[id] < |s.sinks| && s.sinks[s.home[id]].id == id)
  }

  ghost predicate Inv(s: State) {
    && NamesOk(s)
    && (forall h: Half | h < |s.sinks| :: LaneOk(LaneOf(s, h), h))
  }

  lemma {:induction false} EmbedsSkip(d: seq<Chunk>, a: seq<Chunk>, b: seq<Chunk>)
    requires Embeds(d, a)
    ensures Embeds(d, a + b)
    decreases |b|
  {
    if b == [] {
      assert a + b == a;
    } else {
      EmbedsSkip(d, a, b[..|b|-1]);
      assert (a + b)[..|a + b| - 1] == a + b[..|b|-1];
    }
  }

  lemma EmbedsTake(d: seq<Chunk>, a: seq<Chunk>, x: Chunk, y: Chunk)
    requires Embeds(d, a) && x <= y
    ensures Embeds(d + [x], a + [y])
  {
    assert (d + [x])[..|d + [x]| - 1] == d;
    assert (a + [y])[..|a + [y]| - 1] == a;
  }

  lemma EmbedsFail(d: seq<Chunk>, a: seq<Chunk>, batch: seq<Chunk>, n: nat)
    requires Embeds(d, a) && batch != [] && n <= |batch[0]|
    ensures Embeds(d + Cut(batch[0], n), a + batch)
  {
    if n == 0 {
      assert d + Cut(batch[0], n) == d;
      EmbedsSkip(d, a, batch);
    } else {
      EmbedsTake(d, a, batch[0][..n], batch[0]);
      EmbedsSkip(d + Cut(batch[0], n), a + [batch[0]], batch[1..]);
      assert a + [batch[0]] + batch[1..] == a + batch;
    }
  }

  /** The half of the stream an event acts on, if it acts on any. */
  ghost function Target(s: State, e: Event): Option<Half> {
    match e
    case Insert(_) => Some(|s.sinks|)
    case Write(id, _) => if id in s.table then Get(s.home, id) else None
    case Remove(id) => if id in s.table then Get(s.home, id) else None
    case Pass(h) => Some(h)
    case Deliver(h) => Some(h)
    case Fail(h, _) => Some(h)
    case Shut(h) => Some(h)
  }

  /** What an event does to the stream it acts on, whose half is `h`. */
  ghost function LaneStep(l: Lane, h: Half, e: Event): Lane
    requires l.rec.None? ==> !e.Write? && !e.Remove?
    requires e.Pass? ==> l.task.Some? && l.task.value.Loop? && l.rec.Some?
    requires e.Deliver? || e.Fail? ==> l.task.Some? && l.task.value.Loop? && l.task.value.batch != []
    requires e.Fail? ==> e.n <= |l.task.value.batch[0]|
  {
    var k := l.sink;
    match e
    case Insert(id) => l
    case Write(_, buf) =>
      Lane(k.(accepted := k.accepted + [buf]),
           Some(l.rec.value.(q := l.rec.value.q + [buf], write := None)),
           if l.rec.value.write.Some? then Some(Loop(k.id, [])) else l.task)
    case Remove(_) =>
      if l.rec.value.write.Some? then Lane(k, None, Some(Closing))
      else Lane(k, Some(l.rec.value.(ended := true)), l.task)
    case Pass(_) =>
      if l.rec.value.q != [] then
        Lane(k, Some(l.rec.value.(q := l.task.value.batch)), Some(Loop(l.task.value.id, l.rec.value.q)))
      else if l.rec.value.ended then Lane(k, None, Some(Closing))
      else Lane(k, Some(l.rec.value.(write := Some(h))), None)
    case Deliver(_) =>
      var b := l.task.value.batch;
      Lane(k.(consumed := k.consumed + [b[0]], delivered := k.delivered + [b[0]]), l.rec,
           Some(l.task.value.(batch := b[1..])))
    case Fail(_, n) =>
      var b := l.task.value.batch;
      Lane(k.(consumed := k.consumed + b, delivered := k.delivered + Cut(b[0], n), failed := true), l.rec,
           Some(l.task.value.(batch := [])))
    case Shut(_) =>
      Lane(k.(shut := k.shut + 1), l.rec, None)
  }

  lemma WriteKeepsLane(l: Lane, h: Half, e: Event)
    requires LaneOk(l, h) && l.rec.Some? && e.Write?
    ensures LaneOk(LaneStep(l, h, e), h)
  {
    var batch := if l.task.Some? then l.task.value.batch else [];
    assert l.sink.consumed + (batch + (l.rec.value.q + [e.buf])) == l.sink.consumed + (batch + l.rec.value.q) + [e.buf];
  }

  lemma PassKeepsLane(l: Lane, h: Half, e: Event)
    requires LaneOk(l, h) && e.Pass?
    requires l.task.Some? && l.task.value.Loop? && l.task.value.batch == []
    ensures LaneOk(LaneStep(l, h, e), h)
  {
    var q := l.rec.value.q;
    assert [] + q == q + [] == q;
    assert q == [] ==> l.sink.consumed + q == l.sink.consumed;
  }

  lemma DeliverKeepsLane(l: Lane, h: Half, e: Event)
    requires LaneOk(l, h) && e.Deliver?
    requires l.task.Some? && l.task.value.Loop? && l.task.value.batch != []
    ensures LaneOk(LaneStep(l, h, e), h)
  {
    var k, b, q := l.sink, l.task.value.batch, l.rec.value.q;
    EmbedsTake(k.delivered, k.consumed, b[0], b[0]);
    assert k.consumed + (b + q) == (k.consumed + [b[0]]) + (b[1..] + q);
  }

  lemma FailKeepsLane(l: Lane, h: Half, e: Event)
    requires LaneOk(l, h) && e.Fail?
    requires l.task.Some? && l.task.value.Loop? && l.task.value.batch != [] && e.n <= |l.task.value.batch[0]|
    ensures LaneOk(LaneStep(l, h, e), h)
  {
    var k, b, q := l.sink, l.task.value.batch, l.rec.value.q;
    EmbedsFail(k.delivered, k.consumed, b, e.n);
    assert k.consumed + (b + q) == (k.consumed + b) + ([] + q);
  }

  lemma LaneStepKeepsOk(l: Lane, h: Half, e: Event)
    requires LaneOk(l, h)
    requires !e.Insert?
    requires l.rec.None? ==> !e.Write? && !e.Remove?
    requires e.Pass? ==> l.task.Some? && l.task.value.Loop? && l.task.value.batch == []
    requires e.Deliver? || e.Fail? ==> l.task.Some? && l.task.value.Loop? && l.task.value.batch != []
    requires e.Fail? ==> e.n <= |l.task.value.batch[0]|
    requires e.Shut? ==> l.task == Some(Closing)
    ensures LaneOk(LaneStep(l, h, e), h)
  {
    match e
    case Write(_, _) => WriteKeepsLane(l, h, e);
    case Pass(_) => PassKeepsLane(l, h, e);
    case Deliver(_) => DeliverKeepsLane(l, h, e);
    case Fail(_, _) => FailKeepsLane(l, h, e);
    case _ =>
  }

  /** An event leaves every stream but its target alone. */
  lemma OthersUntouched(s: State, e: Event, h: Half)
    requires Inv(s) && Enabled(s, e)
    requires e.Insert? ==> e.id !in s.table
    requires h < |s.sinks| && Target(s, e) != Some(h)
    ensures h < |Step(s, e).sinks| && LaneOf(Step(s, e), h) == LaneOf(s, h)
  {
    if Target(s, e).Some? && Target(s, e).value < |s.sinks| {
      assert LaneOk(LaneOf(s, Target(s, e).value), Target(s, e).value);
    }
  }

  lemma TargetFacts(s: State, e: Event, h: Half)
    requires Inv(s) && Enabled(s, e) && !e.Insert?
    requires h < |s.sinks| && Target(s, e) == Some(h)
    ensures LaneOk(LaneOf(s, h), h)
    ensures e.Write? || e.Remove? ==> e.id == s.sinks[h].id && e.id in s.table
  {
    assert LaneOk(LaneOf(s, h), h);
  }

  /** An event acts on its target as `LaneStep` says. */
  lemma TargetStep(s: State, e: Event, h: Half)
    requires Inv(s) && Enabled(s, e) && !e.Insert?
    requires h < |s.sinks| && Target(s, e) == Some(h)
    ensures h < |Step(s, e).sinks|
    ensures LaneOk(LaneOf(s, h), h) && LaneOf(Step(s, e), h) == LaneStep(LaneOf(s, h), h, e)
  {
    TargetFacts(s, e, h);
  }

  lemma StepKeepsNames(s: State, e: Event)
    requires Inv(s) && Enabled(s, e)
    requires e.Insert? ==> e.id !in s.table
    ensures NamesOk(Step(s, e))
  {
    if Target(s, e).Some? && Target(s, e).value < |s.sinks| {
      assert LaneOk(LaneOf(s, Target(s, e).value), Target(s, e).value);
    }
  }

  /** One step of anyone keeps the invariant, provided inserted ids are new. */
  lemma StepKeepsInv(s: State, e: Event)
    requires Inv(s) && Enabled(s, e)
    requires e.Insert? ==> e.id !in s.table
    ensures Inv(Step(s, e))
  {
    var s' := Step(s, e);
    StepKeepsNames(s, e);
    forall h: Half | h < |s'.sinks|
      ensures LaneOk(LaneOf(s', h), h)
    {
      if h < |s.sinks| {
        assert LaneOk(LaneOf(s, h), h);
        if Target(s, e) == Some(h) {
          TargetStep(s, e, h);
          LaneStepKeepsOk(LaneOf(s, h), h, e);
        } else {
          OthersUntouched(s, e, h);
        }
      }
    }
  }

  /** Every interleaving keeps the invariant. */
  lemma {:induction false} RunKeepsInv(s: State, es: seq<Event>)
    requires Inv(s) && Legal(s, es) && Fresh(s, es)
    ensures Inv(Exec(s, es))
    decreases |es|
  {
    if es != [] {
      StepKeepsInv(s, es[0]);
      RunKeepsInv(Step(s, es[0]), es[1..]);
    }
  }

  // ------------------------------------------------------------------------
  // What the invariant means.
  // ------------------------------------------------------------------------

  /** Accepted, but not yet taken out by a loop. */
  function Pending(l: Lane): seq<Chunk> {
    (if l.task.Some? && l.task.value.Loop? then l.task.value.batch else []) +
    (if l.rec.Some? then l.rec.value.q else [])
  }

  /**
    In every run with fresh ids nothing is lost, reordered or duplicated: without a sink
    error the reader has exactly the accepted chunks that are no longer pending; with one,
    it has prefixes of distinct accepted chunks, in order.
   */
  lemma NothingLost(es: seq<Event>, h: Half)
    requires Legal(INIT, es) && Fresh(INIT, es)
    requires h < |Exec(INIT, es).sinks|
    ensures var l := LaneOf(Exec(INIT, es), h);
            && (!l.sink.failed ==> l.sink.delivered + Pending(l) == l.sink.accepted)
            && Embeds(l.sink.delivered, l.sink.accepted)
  {
    RunKeepsInv(INIT, es);
    var l := LaneOf(Exec(INIT, es), h);
    assert LaneOk(l, h);
    assert l.sink.accepted == l.sink.consumed + Pending(l);
    EmbedsSkip(l.sink.delivered, l.sink.consumed, Pending(l));
  }

  /** Each half has exactly one owner; whoever may use it finds it open. */
  lemma TokenDiscipline(s: State, id: Id, h: Half)
    requires Inv(s)
    // a record that holds its half holds its own, has nothing queued and has not ended
    ensures id in s.table && s.table[id].write == Some(h) ==>
              && s.home[id] == h && h !in s.tasks && s.table[id].q == [] && !s.table[id].ended
    // a record without its half is served by the task that holds that half, and by no other
    ensures id in s.table && s.table[id].write == None ==>
              && Looping(s, s.home[id])
              && forall g: Half | Looping(s, g) && s.tasks[g].id == id :: g == s.home[id]
    // a write loop always finds its record
    ensures Enabled(s, Pass(h)) ==> s.tasks[h].id in s.table
    // nothing is written to, or shut down, twice
    ensures h in s.tasks ==> s.sinks[h].shut == 0
    ensures h < |s.sinks| ==> s.sinks[h].shut <= 1
    // a removal that takes the half, like a loop that breaks, leaves nothing undelivered behind
    ensures id in s.table && Removed(s.table, id).1 == Some(h) ==> s.sinks[h].consumed == s.sinks[h].accepted
    ensures h < |s.sinks| && s.sinks[h].shut == 1 ==> s.sinks[h].consumed == s.sinks[h].accepted
  {
    forall g: Half | Looping(s, g) && s.tasks[g].id == id
      ensures id in s.home && g == s.home[id]
    {
      assert LaneOk(LaneOf(s, g), g);
    }
    if id in s.table {
      assert LaneOk(LaneOf(s, s.home[id]), s.home[id]);
    }
    if h < |s.sinks| {
      assert LaneOk(LaneOf(s, h), h);
    }
  }

  function WrittenBy(e: Event, id: Id): seq<Chunk> {
    if e.Write? && e.id == id then [e.buf] else []
  }

  /** The chunks written to `id` in a run, whether or not they were accepted. */
  function Writes(es: seq<Event>, id: Id): seq<Chunk> {
    if es == [] then []
    else WrittenBy(es[0], id) + Writes(es[1..], id)
  }

  /** A stream is still there, and has not been told to end. */
  predicate Open(s: State, id: Id) {
    id in s.table && id in s.home && s.home[id] < |s.sinks| && !s.table[id].ended
  }

  lemma StepKeepsHome(s: State, e: Event, id: Id)
    requires Enabled(s, e) && id in s.home && e != Insert(id)
    ensures id in Step(s, e).home && Step(s, e).home[id] == s.home[id]
  {
  }

  /** Until it is removed, a stream accepts every write made to it, in order. */
  lemma {:induction false} WritesAreAccepted(s: State, es: seq<Event>, id: Id)
    requires Inv(s) && Legal(s, es) && Fresh(s, es)
    requires Open(s, id) && Remove(id) !in es
    ensures Open(Exec(s, es), id) && Exec(s, es).home[id] == s.home[id]
    ensures Exec(s, es).sinks[s.home[id]].accepted == s.sinks[s.home[id]].accepted + Writes(es, id)
    decreases |es|
  {
    if es != [] {
      var s', h := Step(s, es[0]), s.home[id];
      StepKeepsInv(s, es[0]);
      OneStepAccepts(s, es[0], id);
      WritesAreAccepted(s', es[1..], id);
      Assoc(s.sinks[h].accepted, WrittenBy(es[0], id), Writes(es[1..], id));
    }
  }

  lemma OneStepAccepts(s: State, e: Event, id: Id)
    requires Inv(s) && Enabled(s, e) && Open(s, id)
    requires e.Insert? ==> e.id !in s.table
    requires e != Remove(id)
    ensures Open(Step(s, e), id) && Step(s, e).home[id] == s.home[id]
    ensures Step(s, e).sinks[s.home[id]].accepted == s.sinks[s.home[id]].accepted + WrittenBy(e, id)
  {
    var h := s.home[id];
    StepKeepsInv(s, e);
    StepKeepsHome(s, e, id);
    if Target(s, e) == Some(h) && !e.Insert? {
      TargetStep(s, e, h);
    } else {
      OthersUntouched(s, e, h);
    }
    var k, k' := LaneOf(s, h), LaneOf(Step(s, e), h);
    assert LaneOk(k, h);
    assert k'.rec.Some? && !k'.rec.value.ended;
  }

  /** What an event adds to the stream of half `h`: a write to its id, while the id is still its own. */
  function WrittenTo(s: State, e: Event, h: Half): seq<Chunk>
    requires h < |s.sinks|
  {
    if e.Write? && e.id in s.table && Named(s, h) && e.id == s.sinks[h].id then [e.buf] else []
  }

  /** Nothing but a write to a stream changes what it has accepted. */
  lemma OnlyWritesAreAccepted(s: State, e: Event, h: Half)
    requires Inv(s) && Enabled(s, e) && h < |s.sinks|
    requires e.Insert? ==> e.id !in s.table
    ensures h < |Step(s, e).sinks| && Step(s, e).sinks[h].accepted == s.sinks[h].accepted + WrittenTo(s, e, h)
    ensures Step(s, e).sinks[h].id == s.sinks[h].id
  {
    if Target(s, e) == Some(h) && !e.Insert? {
      TargetStep(s, e, h);
    } else {
      OthersUntouched(s, e, h);
    }
    var l := LaneOf(Step(s, e), h);
    assert l.sink.accepted == s.sinks[h].accepted + WrittenTo(s, e, h);
  }

  /** No write in the run is for the stream of half `h`; its id may be used again for another one. */
  predicate NoWrites(s: State, es: seq<Event>, h: Half)
    requires Legal(s, es) && h < |s.sinks|
    decreases |es|
  {
    es == [] ||
    (WrittenTo(s, es[0], h) == [] && h < |Step(s, es[0]).sinks| && NoWrites(Step(s, es[0]), es[1..], h))
  }

  /** The stream has been told to end: its record says so, or is gone. */
  ghost predicate Ending(l: Lane) {
    l.rec.Some? ==> l.rec.value.ended
  }

  lemma OneStepEnding(s: State, e: Event, h: Half)
    requires Inv(s) && Enabled(s, e) && h < |s.sinks| && Ending(LaneOf(s, h))
    requires e.Insert? ==> e.id !in s.table
    requires WrittenTo(s, e, h) == []
    ensures h < |Step(s, e).sinks| && Ending(LaneOf(Step(s, e), h))
    ensures Step(s, e).sinks[h].accepted == s.sinks[h].accepted && Step(s, e).sinks[h].id == s.sinks[h].id
  {
    if Target(s, e) == Some(h) && !e.Insert? {
      TargetStep(s, e, h);
    } else {
      OthersUntouched(s, e, h);
    }
    assert LaneOk(LaneOf(s, h), h);
    var l := LaneOf(Step(s, e), h);
    assert Ending(l) && l.sink.accepted == s.sinks[h].accepted;
  }

  /** An ending stream stays ending, and without writes accepts nothing more. */
  lemma {:induction false} EndingStays(s: State, es: seq<Event>, h: Half)
    requires Inv(s) && Legal(s, es) && Fresh(s, es)
    requires h < |s.sinks| && Ending(LaneOf(s, h)) && NoWrites(s, es, h)
    ensures h < |Exec(s, es).sinks| && Ending(LaneOf(Exec(s, es), h))
    ensures Exec(s, es).sinks[h].accepted == s.sinks[h].accepted
    decreases |es|
  {
    if es != [] {
      var s' := Step(s, es[0]);
      StepKeepsInv(s, es[0]);
      OneStepEnding(s, es[0], h);
      EndingStays(s', es[1..], h);
    }
  }

  /**
    A stream that is written to and then removed, whatever else happens in between and
    afterwards: once no task holds its half, its reader has got every chunk, in order, and
    then exactly one shutdown - unless a write to it failed.
   */
  lemma WrittenThenRemoved(s: State, id: Id, mid: seq<Event>, post: seq<Event>)
    requires Inv(s) && id !in s.table
    requires var s1 := Step(s, Insert(id)); Legal(s1, mid) && Fresh(s1, mid) && Remove(id) !in mid
    requires var s2 := Step(Exec(Step(s, Insert(id)), mid), Remove(id));
             |s.sinks| < |s2.sinks| && Legal(s2, post) && Fresh(s2, post) && NoWrites(s2, post, |s.sinks|)
    ensures var s3 := Exec(Step(Exec(Step(s, Insert(id)), mid), Remove(id)), post);
            var h := |s.sinks|;
            && h < |s3.sinks|
            && (h !in s3.tasks && !s3.sinks[h].failed ==>
                  s3.sinks[h].delivered == Writes(mid, id) && s3.sinks[h].shut == 1)
  {
    var h := |s.sinks|;
    var s1 := Step(s, Insert(id));
    StepKeepsInv(s, Insert(id));
    assert LaneOf(s1, h) == Lane(Sink(id, [], [], [], false, 0), Some(StreamRec(Some(h), [], false)), None);
    WritesAreAccepted(s1, mid, id);
    RunKeepsInv(s1, mid);
    RemovalEnds(Exec(s1, mid), id, post);
    assert [] + Writes(mid, id) == Writes(mid, id);
  }

  lemma RemovalEnds(s: State, id: Id, post: seq<Event>)
    requires Inv(s) && Open(s, id)
    requires var s2 := Step(s, Remove(id)); Legal(s2, post) && Fresh(s2, post) && NoWrites(s2, post, s.home[id])
    ensures var s3 := Exec(Step(s, Remove(id)), post);
            var h := s.home[id];
            && h < |s3.sinks|
            && (h !in s3.tasks && !s3.sinks[h].failed ==>
                  s3.sinks[h].delivered == s.sinks[h].accepted && s3.sinks[h].shut == 1)
  {
    var h := s.home[id];
    var s2 := Step(s, Remove(id));
    StepKeepsInv(s, Remove(id));
    TargetStep(s, Remove(id), h);
    assert Ending(LaneOf(s2, h)) && s2.sinks[h] == s.sinks[h];
    EndingStays(s2, post, h);
    RunKeepsInv(s2, post);
    assert LaneOk(LaneOf(Exec(s2, post), h), h);
  }

  // ------------------------------------------------------------------------
  // Write loops finish.
  // ------------------------------------------------------------------------

  /** An upper bound on the steps a stream's task can still take by itself. */
  ghost function Work(l: Lane): nat {
    if l.task.None? then 0
    else if l.task.value.Closing? then 1
    else 2 + |l.task.value.batch| + (if l.rec.Some? then 2 * |l.rec.value.q| else 0)
  }

  predicate TaskEvent(e: Event, h: Half) {
    (e.Pass? || e.Deliver? || e.Fail? || e.Shut?) && e.half == h
  }

  function Count(es: seq<Event>, h: Half): nat {
    if es == [] then 0 else (if TaskEvent(es[0], h) then 1 else 0) + Count(es[1..], h)
  }

  /** The event writes to the stream of half `h`, or removes it. */
  predicate MeddlesWith(s: State, e: Event, h: Half)
    requires h < |s.sinks|
  {
    (e.Write? || e.Remove?) && e.id in s.table && Named(s, h) && e.id == s.sinks[h].id
  }

  predicate LeftAlone(s: State, es: seq<Event>, h: Half)
    requires Legal(s, es) && h < |s.sinks|
    decreases |es|
  {
    es == [] ||
    (!MeddlesWith(s, es[0], h) && h < |Step(s, es[0]).sinks| && LeftAlone(Step(s, es[0]), es[1..], h))
  }

  lemma TaskEventsUseUpWork(s: State, e: Event, h: Half)
    requires Inv(s) && Enabled(s, e) && h < |s.sinks|
    requires e.Insert? ==> e.id !in s.table
    requires !MeddlesWith(s, e, h)
    ensures h < |Step(s, e).sinks| && Step(s, e).sinks[h].id == s.sinks[h].id
    ensures Work(LaneOf(Step(s, e), h)) + Count([e], h) <= Work(LaneOf(s, h))
  {
    assert LaneOk(LaneOf(s, h), h);
    if TaskEvent(e, h) {
      TargetStep(s, e, h);
    } else {
      OthersUntouched(s, e, h);
    }
  }

  /** Left alone, a stream's task takes at most `Work` steps in any run. */
  lemma {:induction false} TasksFinish(s: State, es: seq<Event>, h: Half)
    requires Inv(s) && Legal(s, es) && Fresh(s, es) && h < |s.sinks| && LeftAlone(s, es, h)
    ensures h < |Exec(s, es).sinks|
    ensures Work(LaneOf(Exec(s, es), h)) + Count(es, h) <= Work(LaneOf(s, h))
    decreases |es|
  {
    if es != [] {
      var s' := Step(s, es[0]);
      StepKeepsInv(s, es[0]);
      TaskEventsUseUpWork(s, es[0], h);
      TasksFinish(s', es[1..], h);
    }
  }

  /** ... and it never gets stuck before: a half that a task holds always has a next step. */
  lemma TasksProceed(s: State, h: Half)
    requires Inv(s) && h in s.tasks
    ensures Enabled(s, Pass(h)) || Enabled(s, Deliver(h)) || Enabled(s, Shut(h))
    ensures Work(LaneOf(s, h)) > 0
  {
  }

  /** The events of one uninterrupted drain of half `h`. */
  function DrainEvents(h: Half, outcomes: seq<Option<nat>>): seq<Event> {
    if outcomes == [] then []
    else if outcomes[0].Some? then [Fail(h, outcomes[0].value)]
    else [Deliver(h)] + DrainEvents(h, outcomes[1..])
  }

  /** The steps of a write loop over its batch add up to what `DrainBatch` does. */
  lemma {:induction false} DrainIsEvents(s: State, h: Half, outcomes: seq<Option<nat>>)
    requires Looping(s, h) && Outcomes(s.tasks[h].batch, outcomes)
    ensures Legal(s, DrainEvents(h, outcomes))
    ensures var s' := Exec(s, DrainEvents(h, outcomes));
            && |s'.sinks| == |s.sinks|
            && s'.table == s.table && s'.tasks == s.tasks[h := Loop(s.tasks[h].id, [])]
            && s'.sinks[h].delivered == s.sinks[h].delivered + Drained(s.tasks[h].batch, outcomes)
            && s'.sinks[h].consumed == s.sinks[h].consumed + s.tasks[h].batch
    decreases |outcomes|
  {
    var batch, k := s.tasks[h].batch, s.sinks[h];
    if outcomes == [] {
    } else if outcomes[0].Some? {
      Prepend(s, Fail(h, outcomes[0].value), []);
      assert [Fail(h, outcomes[0].value)] + [] == DrainEvents(h, outcomes);
    } else {
      var s1 := Step(s, Deliver(h));
      DrainIsEvents(s1, h, outcomes[1..]);
      Prepend(s, Deliver(h), DrainEvents(h, outcomes[1..]));
      Assoc(k.delivered, [batch[0]], Drained(batch[1..], outcomes[1..]));
      Assoc(k.consumed, [batch[0]], batch[1..]);
      assert [batch[0]] + batch[1..] == batch;
    }
  }

  function NextTaskEvent(s: State, h: Half): Event
    requires h in s.tasks
  {
    if s.tasks[h].Closing? then Shut(h) else if s.tasks[h].batch == [] then Pass(h) else Deliver(h)
  }

  /** A task that is left alone, and meets no broken pipe, gives its half back or shuts it down. */
  lemma {:induction false} FinishAlone(s: State, h: Half) returns (es: seq<Event>)
    requires Inv(s) && h < |s.sinks|
    ensures Legal(s, es) && Fresh(s, es) && Inv(Exec(s, es))
    ensures forall e | e in es :: TaskEvent(e, h)
    ensures h < |Exec(s, es).sinks| && h !in Exec(s, es).tasks
    ensures Exec(s, es).sinks[h].failed == s.sinks[h].failed
    ensures Exec(s, es).sinks[h].accepted == s.sinks[h].accepted
    ensures Ending(LaneOf(s, h)) ==> Ending(LaneOf(Exec(s, es), h))
    decreases Work(LaneOf(s, h))
  {
    es := [];
    if h in s.tasks {
      TasksProceed(s, h);
      var e := NextTaskEvent(s, h);
      StepKeepsInv(s, e);
      TaskEventsUseUpWork(s, e, h);
      OnlyWritesAreAccepted(s, e, h);
      NoBreakNoFailure(s, e, h);
      if Ending(LaneOf(s, h)) {
        OneStepEnding(s, e, h);
      }
      var rest := FinishAlone(Step(s, e), h);
      Prepend(s, e, rest);
      es := [e] + rest;
    }
  }

  lemma NoBreakNoFailure(s: State, e: Event, h: Half)
    requires Enabled(s, e) && h < |s.sinks| && !e.Fail?
    ensures h < |Step(s, e).sinks| && Step(s, e).sinks[h].failed == s.sinks[h].failed
  {
  }

  // ------------------------------------------------------------------------
  // Ids that are used again.
  // ------------------------------------------------------------------------

  /** Inserting an id is harmless if and only if the table has no record that it overwrites. */
  lemma InsertIff(s: State, id: Id)
    requires Inv(s)
    ensures Inv(Step(s, Insert(id))) <==> id !in s.table
  {
    if id in s.table {
      var h := s.home[id];
      var s' := Step(s, Insert(id));
      assert LaneOk(LaneOf(s, h), h);
      assert !LaneOk(LaneOf(s', h), h);
    } else {
      StepKeepsInv(s, Insert(id));
    }
  }

  ghost predicate AlwaysInv(s: State, es: seq<Event>)
    requires Legal(s, es)
    decreases |es|
  {
    Inv(s) && (es == [] || AlwaysInv(Step(s, es[0]), es[1..]))
  }

  /** The invariant holds all through a run if and only if no insertion of the run overwrites a record. */
  lemma {:induction false} FreshIff(s: State, es: seq<Event>)
    requires Inv(s) && Legal(s, es)
    ensures AlwaysInv(s, es) <==> Fresh(s, es)
    decreases |es|
  {
    if es != [] {
      if es[0].Insert? {
        InsertIff(s, es[0].id);
      } else {
        StepKeepsInv(s, es[0]);
      }
      if Inv(Step(s, es[0])) {
        FreshIff(Step(s, es[0]), es[1..]);
      }
    }
  }

  /** Nobody has the half any more, and it was never shut down. */
  ghost predicate Lost(s: State, h: Half) {
    && h < |s.sinks| && s.sinks[h].shut == 0 && h !in s.tasks
    && forall id | id in s.table :: s.table[id].write != Some(h)
  }

  /** A lost half stays lost, whatever anybody does. */
  lemma {:induction false} LostStays(s: State, es: seq<Event>, h: Half)
    requires Lost(s, h) && Legal(s, es)
    ensures Lost(Exec(s, es), h)
    decreases |es|
  {
    if es != [] {
      LostStays(Step(s, es[0]), es[1..], h);
    }
  }

  /** Overwriting a record that holds its half loses the half: its reader never sees an end. */
  lemma OverwrittenHalfIsLost(s: State, id: Id, es: seq<Event>)
    requires Inv(s) && id in s.table && s.table[id].write.Some?
    requires Legal(Step(s, Insert(id)), es)
    ensures Lost(Exec(Step(s, Insert(id)), es), s.table[id].write.value)
  {
    var h := s.home[id];
    assert LaneOk(LaneOf(s, h), h);
    forall i | i in s.table && i != id
      ensures s.table[i].write != Some(h)
    {
      assert LaneOk(LaneOf(s, s.home[i]), s.home[i]);
    }
    LostStays(Step(s, Insert(id)), es, h);
  }

  /** Such a run: two insertions of one id. */
  lemma TwoInsertionsLoseAHalf()
    ensures Legal(INIT, [Insert(7), Insert(7)]) && Lost(Exec(INIT, [Insert(7), Insert(7)]), 0)
  {
    var s1 := Step(INIT, Insert(7));
    StepKeepsInv(INIT, Insert(7));
    OverwrittenHalfIsLost(s1, 7, []);
    Prepend(s1, Insert(7), []);
    Prepend(INIT, Insert(7), [Insert(7)] + []);
    assert [Insert(7)] + ([Insert(7)] + []) == [Insert(7), Insert(7)];
  }

  lemma Prepend(s: State, e: Event, es: seq<Event>)
    requires Enabled(s, e) && Legal(Step(s, e), es)
    ensures Legal(s, [e] + es) && Exec(s, [e] + es) == Exec(Step(s, e), es)
    ensures Fresh(s, [e] + es) <==> (e.Insert? ==> e.id !in s.table) && Fresh(Step(s, e), es)
  {
    assert ([e] + es)[1..] == es;
  }

  /** With a reused id, a loop of the old stream takes what was written to the new one. */
  lemma ReusedIdsMixStreams()
    ensures exists es: seq<Event> :: Legal(INIT, es) && !Fresh(INIT, es) && Mixed(Exec(INIT, es))
  {
    var s1 := Step(INIT, Insert(7));
    var s2 := Step(s1, Write(7, [1]));
    assert [] + [[1]] == [[1]];
    var es := ReusedIdsMiddle(s2);
    Prepend(s1, Write(7, [1]), es);
    Prepend(INIT, Insert(7), [Write(7, [1])] + es);
  }

  /** What was written to the second stream arrived at the first. */
  ghost predicate Mixed(s: State) {
    && |s.sinks| == 2
    && s.sinks[0].accepted == [[1]] && s.sinks[0].delivered == [[2]]
    && s.sinks[1].accepted == [[2]] && s.sinks[1].delivered == [] && Pending(LaneOf(s, 1)) == []
  }

  lemma ReusedIdsMiddle(s: State) returns (es: seq<Event>)
    requires s == State(map[7 := StreamRec(None, [[1]], false)], map[0 := Loop(7, [])],
                        [Sink(7, [[1]], [], [], false, 0)], map[7 := 0])
    ensures Legal(s, es) && !Fresh(s, es) && Mixed(Exec(s, es))
  {
    var s3 := Step(s, Insert(7));
    var s4 := Step(s3, Write(7, [2]));
    assert [] + [[2]] == [[2]];
    var tail := ReusedIdsTail(s4);
    Prepend(s3, Write(7, [2]), tail);
    Prepend(s, Insert(7), [Write(7, [2])] + tail);
    es := [Insert(7)] + ([Write(7, [2])] + tail);
  }

  lemma ReusedIdsTail(s: State) returns (es: seq<Event>)
    requires s.table == map[7 := StreamRec(None, [[2]], false)]
    requires s.tasks == map[0 := Loop(7, []), 1 := Loop(7, [])]
    requires s.sinks == [Sink(7, [[1]], [], [], false, 0), Sink(7, [[2]], [], [], false, 0)]
    ensures Legal(s, es) && Mixed(Exec(s, es))
  {
    var s5 := Step(s, Pass(0));
    Prepend(s5, Deliver(0), []);
    Prepend(s, Pass(0), [Deliver(0)] + []);
    es := [Pass(0)] + ([Deliver(0)] + []);
  }
}

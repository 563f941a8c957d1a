/**
  Credentials survive restarts: over any sequence of processes, a fresh `Auth` reads what was
  stored last, even when the keyring fails in the middle of a write or of a clear.
 */
module AuthProofs {
  import opened Wrappers
  import opened PersistedState
  import opened Keyring
  import opened AuthStorage

  datatype Event<!Cred> =
    | Restart
    | StoreEvent(cred: Cred, luck: Luck)
    | ClearEvent(luck: Luck)
    | ReadEvent(luck: Luck)
    | LateWrites(ring: Ring)      // a keyring call that timed out still has its effect

  /**
    A machine and its history: `last` is what a fresh process ought to read, and `stale` says
    that this process has another value cached: since it opened without reading a
    credential that was there, or since a clear deleted a credential it had cached and then failed.
   */
  datatype Trace<!Cred> = Trace(m: Machine<Cred>, last: Option<Cred>, stale: bool)

  /** When the session was opened there was no file, and the keyring was passed over or could not be read. */
  predicate OpensBlind<Cred>(m: Machine<Cred>, k: Luck) {
    m.session.None? && m.file == Missing && (k.preferFile || ReadFrom(m.ring, k.unreadable, 0).Unreadable?)
  }

  /** A clear that fails after it deleted the first entry has still cleared the credential. */
  predicate ClearBites<Cred>(sealer: Sealer<Cred>, m: Machine<Cred>, k: Luck) {
    !Opened(sealer, m, k).session.value.usesFile && 0 in m.ring && k.ringFailsAt != Some(0)
  }

  predicate MissesCredential<Cred>(t: Trace<Cred>, k: Luck) {
    OpensBlind(t.m, k) && t.last.Some?
  }

  function Step<Cred>(sealer: Sealer<Cred>, step: nat, t: Trace<Cred>, e: Event<Cred>): Trace<Cred>
    requires step > 0
  {
    match e
    case Restart => Trace(t.m.(session := None), t.last, false)
    case StoreEvent(c, k) => Trace(Store(sealer, step, t.m, c, k), Some(c), false)
    case ReadEvent(k) => Trace(Current(sealer, t.m, k).0, t.last, t.stale || MissesCredential(t, k))
    case LateWrites(ring) => t.(m := t.m.(ring := ring))
    case ClearEvent(k) =>
      var (m, ok) := Clear(sealer, t.m, k);
      if ok then Trace(m, None, false)
      else if ClearBites(sealer, t.m, k) then
        Trace(m, None, Opened(sealer, t.m, k).session.value.lastRead != Known(None))
      else Trace(m, t.last, t.stale || MissesCredential(t, k))
  }

  /** File writes succeed, and a keyring in use gets only texts it can give back. */
  predicate Allowed<Cred>(sealer: Sealer<Cred>, step: nat, t: Trace<Cred>, e: Event<Cred>)
    requires step > 0
  {
    match e
    case Restart => true
    case StoreEvent(c, k) =>
      k.saves.Written? && (OnFile(Opened(sealer, t.m, k)) || Storable(sealer.seal(c), step))
    case ClearEvent(k) => k.saves.Written?
    case ReadEvent(k) => k.saves.Written?
    case LateWrites(_) => t.m.file != Missing
  }

  predicate Legal<Cred>(sealer: Sealer<Cred>, step: nat, t: Trace<Cred>, es: seq<Event<Cred>>)
    requires step > 0
    decreases |es|
  {
    es == [] || (Allowed(sealer, step, t, es[0]) && Legal(sealer, step, Step(sealer, step, t, es[0]), es[1..]))
  }

  function Exec<Cred>(sealer: Sealer<Cred>, step: nat, t: Trace<Cred>, es: seq<Event<Cred>>): Trace<Cred>
    requires step > 0
    decreases |es|
  {
    if es == [] then t else Exec(sealer, step, Step(sealer, step, t, es[0]), es[1..])
  }

  /** What a fresh process reads, if it can. */
  function Persisted<Cred>(sealer: Sealer<Cred>, m: Machine<Cred>): LastRead<Cred> {
    if m.file != Missing then Known(Unsealed(sealer, Loaded(None, m.file, None)))
    else FromRing(sealer, ReadFrom(m.ring, {}, 0))
  }

  ghost predicate Faithful<Cred(!new)>(sealer: Sealer<Cred>) {
    forall c: Cred :: sealer.unseal(sealer.seal(c)) == Some(c)
  }

  ghost predicate Inv<Cred>(sealer: Sealer<Cred>, t: Trace<Cred>) {
    && Persisted(sealer, t.m) == Known(t.last)
    && (t.m.session.None? ==> !t.stale)
    && (t.m.session.Some? ==>
          && (!t.m.session.value.usesFile ==> t.m.file == Missing && t.m.session.value.fallback)
          && (t.stale <==> t.m.session.value.lastRead != Known(t.last)))
  }

  lemma {:induction false} ReadableIsRead(ring: Ring, bad: set<nat>, k: nat)
    ensures ReadFrom(ring, bad, k).Unreadable? || ReadFrom(ring, bad, k) == ReadFrom(ring, {}, k)
    ensures !ReadFrom(ring, {}, k).Unreadable?
    decreases KeysFrom(ring, k)
  {
    if k in ring && Continued(ring[k]) {
      KeysShrink(ring, k);
      ReadableIsRead(ring, bad, k + 1);
    }
  }

  lemma OpenKeepsInv<Cred>(sealer: Sealer<Cred>, t: Trace<Cred>, k: Luck)
    requires Inv(sealer, t) && k.saves.Written?
    ensures Inv(sealer, Trace(Opened(sealer, t.m, k), t.last, t.stale || MissesCredential(t, k)))
  {
    ReadableIsRead(t.m.ring, k.unreadable, 0);
  }

  lemma StoreKeepsInv<Cred(!new)>(sealer: Sealer<Cred>, step: nat, t: Trace<Cred>, c: Cred, k: Luck)
    requires step > 0 && Faithful(sealer) && Inv(sealer, t) && Allowed(sealer, step, t, StoreEvent(c, k))
    ensures Inv(sealer, Trace(Store(sealer, step, t.m, c, k), Some(c), false))
  {
    OpenKeepsInv(sealer, t, k);
    var m := Opened(sealer, t.m, k);
    var text := sealer.seal(c);
    assert sealer.unseal(text) == Some(c);
    if !OnFile(m) {
      StoreVerdict(m.ring, text, 0, step, k.ringFailsAt);
      AlwaysRoundTripsIff(text, step);
      assert ReadFrom(StoreFrom(m.ring, text, 0, step, None).0, {}, 0) == Text(text);
    }
  }

  /** A store that succeeds is a store in which nothing failed. */
  lemma {:induction false} StoreVerdict(ring: Ring, text: string, k: nat, step: nat, failAt: Option<nat>)
    requires step > 0
    ensures StoreFrom(ring, text, k, step, failAt).1 ==>
              StoreFrom(ring, text, k, step, failAt) == StoreFrom(ring, text, k, step, None)
    decreases |text|
  {
    if step <= |text| {
      StoreVerdict(ring[k := text[..step] + CONTINUE_MARKER], text[step..], k + 1, step, failAt);
    }
  }

  lemma ClearKeepsInv<Cred>(sealer: Sealer<Cred>, step: nat, t: Trace<Cred>, k: Luck)
    requires step > 0 && Inv(sealer, t) && k.saves.Written?
    ensures Inv(sealer, Step(sealer, step, t, ClearEvent(k)))
  {
    OpenKeepsInv(sealer, t, k);
    var m := Opened(sealer, t.m, k);
    if !m.session.value.usesFile {
      var n := Max(m.session.value.entries, Visited(m.ring, k.unreadable, 0));
      ClearedReadsNothing(m.ring, n, k.ringFailsAt);
    }
  }

  lemma StepKeepsInv<Cred(!new)>(sealer: Sealer<Cred>, step: nat, t: Trace<Cred>, e: Event<Cred>)
    requires step > 0 && Faithful(sealer) && Inv(sealer, t) && Allowed(sealer, step, t, e)
    ensures Inv(sealer, Step(sealer, step, t, e))
  {
    match e
    case StoreEvent(c, k) => StoreKeepsInv(sealer, step, t, c, k);
    case ClearEvent(k) => ClearKeepsInv(sealer, step, t, k);
    case ReadEvent(k) => OpenKeepsInv(sealer, t, k);
    case _ =>
  }

  lemma {:induction false} RunKeepsInv<Cred(!new)>(sealer: Sealer<Cred>, step: nat, t: Trace<Cred>, es: seq<Event<Cred>>)
    requires step > 0 && Faithful(sealer) && Inv(sealer, t) && Legal(sealer, step, t, es)
    ensures Inv(sealer, Exec(sealer, step, t, es))
    decreases |es|
  {
    if es != [] {
      StepKeepsInv(sealer, step, t, es[0]);
      RunKeepsInv(sealer, step, Step(sealer, step, t, es[0]), es[1..]);
    }
  }

  /** A machine without credentials. */
  function Blank<Cred>(): Trace<Cred> {
    Trace(Machine(map[], Missing, None), None, false)
  }

  /**
    After any sequence of processes that store, clear and read, with keyring failures anywhere:
    a fresh process that can read reads the last credential, and the running process has it
    cached if and only if it is not stale.
   */
  lemma CredentialsSurvive<Cred(!new)>(sealer: Sealer<Cred>, step: nat, es: seq<Event<Cred>>, k: Luck)
    requires step > 0 && Faithful(sealer) && Legal(sealer, step, Blank(), es)
    ensures var t := Exec(sealer, step, Blank(), es);
            && (!OpensBlind(t.m.(session := None), k) ==>
                  Current(sealer, t.m.(session := None), k).1 == Known(t.last))
            && (t.m.session.Some? ==> (Current(sealer, t.m, k).1 == Known(t.last) <==> !t.stale))
  {
    RunKeepsInv(sealer, step, Blank(), es);
    var t := Exec(sealer, step, Blank<Cred>(), es);
    ReadableIsRead(t.m.ring, k.unreadable, 0);
  }

  lemma Ahead<Cred>(sealer: Sealer<Cred>, step: nat, t: Trace<Cred>, e: Event<Cred>, es: seq<Event<Cred>>)
    requires step > 0
    ensures Legal(sealer, step, t, [e] + es) <==>
            Allowed(sealer, step, t, e) && Legal(sealer, step, Step(sealer, step, t, e), es)
    ensures Exec(sealer, step, t, [e] + es) == Exec(sealer, step, Step(sealer, step, t, e), es)
  {
    assert ([e] + es)[1..] == es;
  }

  const LUCKY := Luck(false, {}, None, Written)

  /** A machine on which one process has stored `c` in the keyring. */
  lemma StoredInRing<Cred(!new)>(sealer: Sealer<Cred>, step: nat, c: Cred) returns (t: Trace<Cred>)
    requires step > 0 && Faithful(sealer) && Storable(sealer.seal(c), step)
    ensures Allowed(sealer, step, Blank(), StoreEvent(c, LUCKY)) && t == Step(sealer, step, Blank(), StoreEvent(c, LUCKY))
    ensures Inv(sealer, t) && t.last == Some(c) && !t.stale && t.m.session.Some? && !OnFile(t.m) && t.m.file == Missing
    ensures t.m.session.value.entries >= Attempted(sealer.seal(c), 0, step, None)
    ensures 0 in t.m.ring && t.m.ring == StoreFrom(map[], sealer.seal(c), 0, step, None).0
  {
    t := Step(sealer, step, Blank(), StoreEvent(c, LUCKY));
    StepKeepsInv(sealer, step, Blank(), StoreEvent(c, LUCKY));
    StoreSucceeds(map[], sealer.seal(c), 0, step);
  }

  lemma {:induction false} StoreSucceeds(ring: Ring, text: string, k: nat, step: nat)
    requires step > 0
    ensures StoreFrom(ring, text, k, step, None).1
    decreases |text|
  {
    if step <= |text| {
      StoreSucceeds(ring[k := text[..step] + CONTINUE_MARKER], text[step..], k + 1, step);
    }
  }

  /** A process that cannot read the keyring when it opens has no credential, though one is stored. */
  lemma BlindOpenIsStale<Cred(!new)>(sealer: Sealer<Cred>, step: nat, c: Cred)
    requires step > 0 && Faithful(sealer) && Storable(sealer.seal(c), step)
    ensures var es := [StoreEvent(c, LUCKY), Restart, ReadEvent(LUCKY.(unreadable := {0}))];
            && Legal(sealer, step, Blank(), es)
            && var t := Exec(sealer, step, Blank(), es);
               t.stale && t.last == Some(c) && t.m.session.Some? && t.m.session.value.lastRead == Known(None)
  {
    var t1 := StoredInRing(sealer, step, c);
    var blind := LUCKY.(unreadable := {0});
    var t2 := Step(sealer, step, t1, Restart);
    assert OpensBlind(t2.m, blind);
    Ahead(sealer, step, t2, ReadEvent(blind), []);
    Ahead(sealer, step, t1, Restart, [ReadEvent(blind)] + []);
    Ahead(sealer, step, Blank(), StoreEvent(c, LUCKY), [Restart] + ([ReadEvent(blind)] + []));
    assert [StoreEvent(c, LUCKY)] + ([Restart] + ([ReadEvent(blind)] + [])) ==
           [StoreEvent(c, LUCKY), Restart, ReadEvent(blind)];
  }

  /** Nor has a process that is told to use the file, and finds none. */
  lemma ForcedFileIsStale<Cred(!new)>(sealer: Sealer<Cred>, step: nat, c: Cred)
    requires step > 0 && Faithful(sealer) && Storable(sealer.seal(c), step)
    ensures var es := [StoreEvent(c, LUCKY), Restart, ReadEvent(LUCKY.(preferFile := true))];
            && Legal(sealer, step, Blank(), es)
            && var t := Exec(sealer, step, Blank(), es);
               t.stale && t.last == Some(c) && t.m.session.Some? && t.m.session.value.lastRead == Known(None)
  {
    var t1 := StoredInRing(sealer, step, c);
    var forced := LUCKY.(preferFile := true);
    var t2 := Step(sealer, step, t1, Restart);
    assert OpensBlind(t2.m, forced);
    Ahead(sealer, step, t2, ReadEvent(forced), []);
    Ahead(sealer, step, t1, Restart, [ReadEvent(forced)] + []);
    Ahead(sealer, step, Blank(), StoreEvent(c, LUCKY), [Restart] + ([ReadEvent(forced)] + []));
    assert [StoreEvent(c, LUCKY)] + ([Restart] + ([ReadEvent(forced)] + [])) ==
           [StoreEvent(c, LUCKY), Restart, ReadEvent(forced)];
  }

  /** A clear that deletes the first entry and fails on the second: the process keeps a credential that is gone. */
  lemma CutShortClearIsStale<Cred(!new)>(sealer: Sealer<Cred>, step: nat, c: Cred)
    requires step > 0 && Faithful(sealer) && Storable(sealer.seal(c), step) && |sealer.seal(c)| > step
    ensures var es := [StoreEvent(c, LUCKY), ClearEvent(LUCKY.(ringFailsAt := Some(1)))];
            && Legal(sealer, step, Blank(), es)
            && var t := Exec(sealer, step, Blank(), es);
               t.stale && t.last == None && t.m.session.Some? && t.m.session.value.lastRead == Known(Some(c))
  {
    var t1 := StoredInRing(sealer, step, c);
    var cut := LUCKY.(ringFailsAt := Some(1));
    assert Attempted(sealer.seal(c)[step..], 1, step, None) >= 2;
    var ring, n := t1.m.ring, Max(t1.m.session.value.entries, Visited(t1.m.ring, {}, 0));
    assert ClearFrom(ring, 0, n, Some(1)) == ClearFrom(ring - {0}, 1, n, Some(1)) == (ring - {0}, false);
    assert ClearBites(sealer, t1.m, cut);
    Ahead(sealer, step, t1, ClearEvent(cut), []);
    Ahead(sealer, step, Blank(), StoreEvent(c, LUCKY), [ClearEvent(cut)] + []);
    assert [StoreEvent(c, LUCKY)] + ([ClearEvent(cut)] + []) == [StoreEvent(c, LUCKY), ClearEvent(cut)];
  }

  predicate OnFile<Cred>(m: Machine<Cred>) {
    m.session.Some? && m.session.value.usesFile
  }

  /** Within a process, the switch from the keyring to the file is never taken back, so it happens at most once. */
  lemma {:induction false} SwitchIsFinal<Cred>(sealer: Sealer<Cred>, step: nat, t: Trace<Cred>, es: seq<Event<Cred>>)
    requires step > 0 && OnFile(t.m) && Restart !in es
    ensures OnFile(Exec(sealer, step, t, es).m)
    decreases |es|
  {
    if es != [] {
      assert es[0] in es;
      SwitchIsFinal(sealer, step, Step(sealer, step, t, es[0]), es[1..]);
    }
  }

  /** The number of stores, clears and reads in a run that move the process from the keyring to the file. */
  function Switches<Cred>(sealer: Sealer<Cred>, step: nat, t: Trace<Cred>, es: seq<Event<Cred>>): nat
    requires step > 0
    decreases |es|
  {
    if es == [] then 0
    else
      var t1 := Step(sealer, step, t, es[0]);
      (if t.m.session.Some? && !OnFile(t.m) && OnFile(t1.m) then 1 else 0) + Switches(sealer, step, t1, es[1..])
  }

  lemma {:induction false} SwitchesOnce<Cred>(sealer: Sealer<Cred>, step: nat, t: Trace<Cred>, es: seq<Event<Cred>>)
    requires step > 0 && Restart !in es
    ensures Switches(sealer, step, t, es) <= (if OnFile(t.m) then 0 else 1)
    decreases |es|
  {
    if es != [] {
      assert es[0] in es;
      if OnFile(t.m) {
        SwitchIsFinal(sealer, step, t, [es[0]]);
        assert [es[0]][1..] == [];
      }
      SwitchesOnce(sealer, step, Step(sealer, step, t, es[0]), es[1..]);
    }
  }

  /** Clearing a keyring that holds nothing reports an error, and leaves the cached credential as it was. */
  lemma ClearingNothingFails<Cred>(sealer: Sealer<Cred>, m: Machine<Cred>, k: Luck)
    requires m.session.Some? && !m.session.value.usesFile && 0 !in m.ring
    ensures var (m', ok) := Clear(sealer, m, k);
            !ok && m'.ring == m.ring && m'.session.Some? && m'.session.value.lastRead == m.session.value.lastRead
  {
    ClearedReadsNothing(m.ring, Max(m.session.value.entries, Visited(m.ring, k.unreadable, 0)), k.ringFailsAt);
  }
}

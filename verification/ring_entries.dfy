/**
  Which entries of the keyring a process deletes when it clears its credential, for
  `KeyringStorage` in cli/src/auth.rs: the entries it has asked for since it was started or last
  cleared them, whether or not they are there, and those that a read comes upon.
 */
module RingEntries {
  import opened Wrappers
  import opened Keyring
  import opened AuthStorage
  import opened AuthProofs
  import PersistedState

  // ------------------------------------------------------------------------
  // Entries that one operation asks for.
  // ------------------------------------------------------------------------

  /** A read gets as far as entry `j`. */
  predicate Reaches(ring: Ring, bad: set<nat>, j: nat) {
    ReachesFrom(ring, bad, 0, j)
  }

  predicate ReachesFrom(ring: Ring, bad: set<nat>, k: nat, j: nat) {
    forall i: nat | k <= i < j :: i !in bad && i in ring && Continued(ring[i])
  }

  lemma {:induction false} VisitedIs(ring: Ring, bad: set<nat>, k: nat, j: nat)
    requires k <= j
    ensures j < Visited(ring, bad, k) <==> ReachesFrom(ring, bad, k, j)
    decreases KeysFrom(ring, k)
  {
    if k !in bad && k in ring && Continued(ring[k]) {
      KeysShrink(ring, k);
      if k < j {
        VisitedIs(ring, bad, k + 1, j);
      }
    }
  }

  /** A store gets as far as entry `j`: the text is long enough, and no entry before it failed. */
  predicate Writes(text: string, step: nat, failAt: Option<nat>, j: nat) {
    WritesFrom(text, 0, step, failAt, j)
  }

  predicate WritesFrom(text: string, k: nat, step: nat, failAt: Option<nat>, j: nat) {
    k <= j && (j - k) * step < |text| && forall i | k <= i < j :: failAt != Some(i)
  }

  lemma OneFurther(j: nat, k: nat, step: nat)
    requires k < j
    ensures (j - k) * step == (j - (k + 1)) * step + step >= step
  {
  }

  lemma WritesFurther(text: string, k: nat, step: nat, failAt: Option<nat>, j: nat)
    requires k < j
    ensures WritesFrom(text, k, step, failAt, j) <==>
            step <= |text| && failAt != Some(k) && WritesFrom(text[step..], k + 1, step, failAt, j)
  {
    OneFurther(j, k, step);
  }

  lemma {:induction false} AttemptedIs(text: string, k: nat, step: nat, failAt: Option<nat>, j: nat)
    requires step > 0 && k <= j
    ensures j < Attempted(text, k, step, failAt) <==> WritesFrom(text, k, step, failAt, j)
    decreases |text|
  {
    if k < j {
      WritesFurther(text, k, step, failAt, j);
      if step <= |text| && failAt != Some(k) {
        AttemptedIs(text[step..], k + 1, step, failAt, j);
      }
    }
  }

  /** What a store writes to the entry of one piece. */
  function Piece(text: string, from: nat, step: nat): string
    requires from <= |text|
  {
    if from + step <= |text| then text[from..from + step] + "<MORE>" else text[from..]
  }

  lemma PieceBehind(text: string, from: nat, step: nat)
    requires step <= |text| && from <= |text| - step
    ensures Piece(text, from + step, step) == Piece(text[step..], from, step)
  {
    assert text[step..][from..] == text[from + step..];
  }

  predicate Same(a: Ring, b: Ring, j: nat) {
    (j in a <==> j in b) && (j in a ==> a[j] == b[j])
  }

  /** What entry `j` is after a store: its piece, if the store gets there and does not fail on it. */
  predicate Stored(r: Ring, ring: Ring, text: string, k: nat, step: nat, failAt: Option<nat>, j: nat) {
    if WritesFrom(text, k, step, failAt, j) && failAt != Some(j) then j in r && r[j] == Piece(text, (j - k) * step, step)
    else Same(r, ring, j)
  }

  lemma StoredFurther(r: Ring, ring: Ring, text: string, k: nat, step: nat, failAt: Option<nat>, j: nat)
    requires k < j && step <= |text| && failAt != Some(k)
    requires Stored(r, ring[k := text[..step] + CONTINUE_MARKER], text[step..], k + 1, step, failAt, j)
    ensures Stored(r, ring, text, k, step, failAt, j)
  {
    WritesFurther(text, k, step, failAt, j);
    if WritesFrom(text, k, step, failAt, j) {
      OneFurther(j, k, step);
      PieceBehind(text, (j - (k + 1)) * step, step);
    }
  }

  /** Each entry that a store gets to, but for one that fails, holds its piece of the text; the others stay. */
  lemma {:induction false} StoredIs(ring: Ring, text: string, k: nat, step: nat, failAt: Option<nat>, j: nat)
    requires step > 0
    ensures Stored(StoreFrom(ring, text, k, step, failAt).0, ring, text, k, step, failAt, j)
    decreases |text|
  {
    if step <= |text| && failAt != Some(k) {
      var first := ring[k := text[..step] + CONTINUE_MARKER];
      StoredIs(first, text[step..], k + 1, step, failAt, j);
      if k < j {
        StoredFurther(StoreFrom(ring, text, k, step, failAt).0, ring, text, k, step, failAt, j);
      }
    } else if k < j {
      WritesFurther(text, k, step, failAt, j);
    }
  }

  // ------------------------------------------------------------------------
  // Entries that a process knows of.
  // ------------------------------------------------------------------------

  /** The operation asks the keyring for entry `j`: as it opens, or for what it does then. */
  predicate AsksFor<Cred>(sealer: Sealer<Cred>, step: nat, t: Trace<Cred>, e: Event<Cred>, j: nat) {
    match e
    case StoreEvent(c, k) => OpensOver(t.m, k, j) || Writes(sealer.seal(c), step, k.ringFailsAt, j)
    case ReadEvent(k) => OpensOver(t.m, k, j)
    case ClearEvent(k) => Reaches(t.m.ring, k.unreadable, j)
    case Restart => false
    case LateWrites(_) => false
  }

  predicate OpensOver<Cred>(m: Machine<Cred>, k: Luck, j: nat) {
    m.session.None? && Reaches(m.ring, k.unreadable, j)
  }

  /** The process asked for entry `j` in this run, and neither ended nor cleared its credential since. */
  predicate Knows<Cred>(sealer: Sealer<Cred>, step: nat, t: Trace<Cred>, es: seq<Event<Cred>>, j: nat, before: bool)
    requires step > 0
    decreases |es|
  {
    if es == [] then before
    else Knows(sealer, step, Step(sealer, step, t, es[0]), es[1..], j, KnowsThen(sealer, step, t, es[0], j, before))
  }

  predicate KnowsThen<Cred>(sealer: Sealer<Cred>, step: nat, t: Trace<Cred>, e: Event<Cred>, j: nat, before: bool) {
    && !e.Restart?
    && !(e.ClearEvent? && Clear(sealer, t.m, e.luck).1)
    && (before || AsksFor(sealer, step, t, e, j))
  }

  /** The entries in memory are the ones the process knows of, while it is on the keyring. */
  predicate Made<Cred>(m: Machine<Cred>, j: nat, known: bool) {
    if m.session.None? then !known else m.session.value.usesFile || (j < m.session.value.entries <==> known)
  }

  lemma OpenedKnows<Cred>(sealer: Sealer<Cred>, m: Machine<Cred>, k: Luck, j: nat, known: bool)
    requires Made(m, j, known)
    ensures Made(Opened(sealer, m, k), j, known || OpensOver(m, k, j))
  {
    VisitedIs(m.ring, k.unreadable, 0, j);
  }

  lemma StepKnows<Cred>(sealer: Sealer<Cred>, step: nat, t: Trace<Cred>, e: Event<Cred>, j: nat, known: bool)
    requires step > 0 && Made(t.m, j, known)
    ensures Made(Step(sealer, step, t, e).m, j, KnowsThen(sealer, step, t, e, j, known))
  {
    match e {
      case StoreEvent(c, k) =>
        OpenedKnows(sealer, t.m, k, j, known);
        AttemptedIs(sealer.seal(c), 0, step, k.ringFailsAt, j);
      case ReadEvent(k) => OpenedKnows(sealer, t.m, k, j, known);
      case ClearEvent(k) =>
        OpenedKnows(sealer, t.m, k, j, known);
        VisitedIs(t.m.ring, k.unreadable, 0, j);
      case Restart =>
      case LateWrites(_) =>
    }
  }

  lemma {:induction false} RunKnows<Cred>(sealer: Sealer<Cred>, step: nat, t: Trace<Cred>, es: seq<Event<Cred>>, j: nat, known: bool)
    requires step > 0 && Made(t.m, j, known)
    ensures Made(Exec(sealer, step, t, es).m, j, Knows(sealer, step, t, es, j, known))
    decreases |es|
  {
    if es != [] {
      StepKnows(sealer, step, t, es[0], j, known);
      RunKnows(sealer, step, Step(sealer, step, t, es[0]), es[1..], j, KnowsThen(sealer, step, t, es[0], j, known));
    }
  }

  /** An entry that a clear deletes, or fails on. */
  predicate Cleared<Cred>(sealer: Sealer<Cred>, step: nat, t: Trace<Cred>, es: seq<Event<Cred>>, k: Luck, j: nat)
    requires step > 0
  {
    Knows(sealer, step, t, es, j, false) || Reaches(Exec(sealer, step, t, es).m.ring, k.unreadable, j)
  }

  /**
    After any run, a clear of the keyring succeeds if and only if every entry is there, and can be
    deleted, that the process knows of or that a read comes upon; and then exactly these are gone.
   */
  lemma ClearDeletes<Cred>(sealer: Sealer<Cred>, step: nat, t: Trace<Cred>, es: seq<Event<Cred>>, k: Luck)
    requires step > 0 && t.m.session.None?
    requires var m := Exec(sealer, step, t, es).m; m.session.Some? && !OnFile(m)
    ensures var m := Exec(sealer, step, t, es).m;
            var (m', ok) := Clear(sealer, m, k);
            && (ok <==> forall j | Cleared(sealer, step, t, es, k, j) :: j in m.ring && k.ringFailsAt != Some(j))
            && (ok ==> forall j: nat :: j in m'.ring <==> j in m.ring && !Cleared(sealer, step, t, es, k, j))
  {
    var m := Exec(sealer, step, t, es).m;
    var n := Max(m.session.value.entries, Visited(m.ring, k.unreadable, 0));
    forall j: nat
      ensures j < n <==> Cleared(sealer, step, t, es, k, j)
    {
      RunKnows(sealer, step, t, es, j, false);
      VisitedIs(m.ring, k.unreadable, 0, j);
    }
    ClearIff(m.ring, 0, n, k.ringFailsAt);
  }

  /**
    A process that opened on a credential whose end was lost, and then stored a shorter one, cannot clear
    that: the clear deletes both, and fails on the entry that was lost before.
   */
  lemma LostEndIsNotCleared<Cred(!new)>(sealer: Sealer<Cred>, step: nat, c: Cred, m: Machine<Cred>)
    requires Faithful(sealer) && 0 < |sealer.seal(c)| < step
    requires m.session.None? && m.file == PersistedState.Missing && 1 !in m.ring && 0 in m.ring && Continued(m.ring[0])
    ensures var t := Trace(m, None, false);
            var t' := Exec(sealer, step, t, [StoreEvent(c, LUCKY)]);
            && t'.m.session.Some? && !OnFile(t'.m) && !Clear(sealer, t'.m, LUCKY).1
            && 0 !in Clear(sealer, t'.m, LUCKY).0.ring
  {
    var t := Trace(m, None, false);
    var es := [StoreEvent(c, LUCKY)];
    var t' := Step(sealer, step, t, es[0]);
    assert es[1..] == [];
    assert Exec(sealer, step, t, es) == Exec(sealer, step, t', []) == t';
    ReadableIsRead(m.ring, {}, 0);
    KeysShrink(m.ring, 0);
    assert ReadFrom(m.ring, {}, 1) == NoEntry;
    ClearDeletes(sealer, step, t, es, LUCKY);
    assert OpensOver(m, LUCKY, 1);
    assert Cleared(sealer, step, t, es, LUCKY, 1);
    StoredIs(m.ring, sealer.seal(c), 0, step, None, 1);
    ClearedReadsNothing(t'.m.ring, Max(t'.m.session.value.entries, Visited(t'.m.ring, {}, 0)), None);
    ClearIff(t'.m.ring, 0, 1, None);
  }
}

/**
  Tasks of one process that use the same cache: what cli/src/download_cache.rs promises when
  their steps are interleaved. The list is only changed under the lock of its container, but
  directories are checked, removed, made and renamed while others hold it or not.
 */
module DownloadCacheTasks {
  import opened Wrappers
  import opened PersistedState
  import opened DownloadCache
  import opened DownloadCacheProofs

  /** Making the directory, due to use its name, or due to rename the directory. */
  datatype Phase = Making | Made | Waiting

  datatype Creation = Creation(name: string, phase: Phase)

  /** A use that holds the lock: it has dealt with the oldest name, and will write the list. */
  datatype Touching = Touching(name: string, creation: Option<nat>, evicts: bool)

  /**
    The cache and the tasks in it. `forgetting` has the names whose directory a deletion has dealt
    with. For each name, `makers` has the creation that set up its staging directory last;
    `finished` has the creations whose directory was made to the end.
   */
  datatype Tasks = Tasks(cache: Cache, creations: map<nat, Creation>, forgetting: multiset<string>,
                         touching: Option<Touching>, next: nat, makers: map<string, nat>, finished: set<nat>)

  /** The names say which directory it is; the numbers, which creation. */
  datatype Event =
    | Begin(name: string, creation: Option<nat>, removes: bool)
    | End(name: string, saves: WriteOutcome)
    | Remove(name: string, removes: bool)
    | Forget(name: string, saves: WriteOutcome)
    | Stage(name: string)
    | Finish(name: string, id: nat)
    | Abandon(name: string, id: nat)
    | Install(name: string, id: nat)
    | GiveUp(name: string, id: nat)

  predicate Has(t: Tasks, id: nat, c: Creation) {
    id in t.creations && t.creations[id] == c
  }

  predicate Enabled(t: Tasks, e: Event) {
    match e
    case Begin(n, creation, _) => t.touching.None? && (creation.Some? ==> Has(t, creation.value, Creation(n, Made)))
    case End(n, _) => t.touching.Some? && t.touching.value.name == n
    case Forget(n, _) => t.touching.None? && n in t.forgetting
    case Finish(n, id) => Has(t, id, Creation(n, Making))
    case Abandon(n, id) => Has(t, id, Creation(n, Making))
    case Install(n, id) => Has(t, id, Creation(n, Waiting)) && Staging(n) in t.cache.dirs
    case GiveUp(n, id) => Has(t, id, Creation(n, Waiting))
    case _ => true
  }

  /** Whether the use of a name will shorten the list if it gets too long. */
  predicate Evicts(l: seq<string>, dirs: set<string>, name: string, removes: bool) {
    var used := [name] + Without(l, name);
    |used| <= KEEP_LRU || used[|used|-1] !in dirs || removes
  }

  function AfterUse(l: seq<string>, name: string, evicts: bool): seq<string> {
    var used := [name] + Without(l, name);
    if |used| > KEEP_LRU && evicts then used[..|used|-1] else used
  }

  /** The two halves of a use are the use as it is when nothing comes between. */
  lemma BothHalves(l: seq<string>, dirs: set<string>, name: string, removes: bool)
    ensures Touched(l, dirs, name, removes).0 == AfterUse(l, name, Evicts(l, dirs, name, removes))
  {
  }

  /**
    `exists` finds a directory some time before it uses its name, and uses it even if the directory
    is gone by then: so a use that is no creation's can begin at any time.
   */
  function Step(t: Tasks, e: Event): Tasks
    requires Enabled(t, e)
  {
    var c := t.cache;
    match e
    case Begin(n, creation, removes) =>
      t.(cache := c.(dirs := Touched(Names(c), c.dirs, n, removes).1),
         touching := Some(Touching(n, creation, Evicts(Names(c), c.dirs, n, removes))))
    case End(n, saves) =>
      var creation := t.touching.value.creation;
      t.(cache := Stored(c, AfterUse(Names(c), n, t.touching.value.evicts), c.dirs, saves), touching := None,
         creations := if creation.Some? then t.creations[creation.value := Creation(n, Waiting)] else t.creations)
    case Remove(n, removes) =>
      if n in c.dirs && !removes then t
      else t.(cache := c.(dirs := c.dirs - {n}), forgetting := t.forgetting + multiset{n})
    case Forget(n, saves) =>
      t.(cache := Stored(c, Others(Names(c), n), c.dirs, saves), forgetting := t.forgetting - multiset{n})
    case Stage(n) =>
      if n in c.dirs then t
      else t.(cache := Staged(c, n), creations := t.creations[t.next := Creation(n, Making)],
              makers := t.makers[n := t.next], next := t.next + 1)
    case Finish(n, id) => t.(creations := t.creations[id := Creation(n, Made)], finished := t.finished + {id})
    case Abandon(_, id) => t.(creations := t.creations - {id})
    case Install(n, id) => t.(cache := Installed(c, n), creations := t.creations - {id})
    case GiveUp(_, id) => t.(creations := t.creations - {id})
  }

  predicate Legal(t: Tasks, es: seq<Event>)
    decreases |es|
  {
    es == [] || (Enabled(t, es[0]) && Legal(Step(t, es[0]), es[1..]))
  }

  function ExecTasks(t: Tasks, es: seq<Event>): Tasks
    requires Legal(t, es)
    decreases |es|
  {
    if es == [] then t else ExecTasks(Step(t, es[0]), es[1..])
  }

  const IDLE := Tasks(EMPTY, map[], multiset{}, None, 0, map[], {})

  predicate PlainEvents(es: seq<Event>) {
    forall e | e in es :: Plain(e.name)
  }

  // ------------------------------------------------------------------------
  // What every interleaving keeps.
  // ------------------------------------------------------------------------

  ghost predicate AllListed(t: Tasks) {
    Listed(Names(t.cache), t.cache.dirs)
  }

  /** A rename forgets its directory if and only if its name has left the list by then. */
  lemma InstallIff(t: Tasks, n: string, id: nat)
    requires AllListed(t) && Plain(n) && Enabled(t, Install(n, id))
    ensures AllListed(Step(t, Install(n, id))) <==> n in Names(t.cache)
  {
    StagingIsNotPlain(n);
  }

  /** A deletion forgets a directory if and only if it is there again by the time the list is changed. */
  lemma ForgetIff(t: Tasks, n: string, saves: WriteOutcome)
    requires AllListed(t) && Plain(n) && Enabled(t, Forget(n, saves))
    ensures AllListed(Step(t, Forget(n, saves))) <==> n !in t.cache.dirs
  {
    OthersIsWithout(Names(t.cache), n);
    WithoutFacts(Names(t.cache), n);
  }

  /** The name that the use in progress will take off the list. */
  function Leaving(t: Tasks): Option<string> {
    if t.touching.None? then None
    else
      var used := [t.touching.value.name] + Without(Names(t.cache), t.touching.value.name);
      if |used| > KEEP_LRU && t.touching.value.evicts then Some(used[|used|-1]) else None
  }

  /** A use forgets a directory if and only if that of the name it takes off the list is there by then. */
  lemma EndIff(t: Tasks, n: string, saves: WriteOutcome)
    requires AllListed(t) && Plain(n) && Enabled(t, End(n, saves))
    ensures AllListed(Step(t, End(n, saves))) <==> Leaving(t).None? || Leaving(t).value !in t.cache.dirs
  {
    var l := Names(t.cache);
    var used := [n] + Without(l, n);
    WithoutFacts(l, n);
    assert forall m :: m in used <==> m in l || m == n;
    AllButLast(used);
  }

  /** Any other step keeps every complete directory listed. */
  lemma StepKeepsListed(t: Tasks, e: Event)
    requires AllListed(t) && Plain(e.name) && Enabled(t, e) && !e.Install? && !e.Forget? && !e.End?
    ensures AllListed(Step(t, e))
  {
    StagingIsNotPlain(e.name);
  }

  ghost predicate AlwaysListed(t: Tasks, es: seq<Event>)
    requires Legal(t, es)
    decreases |es|
  {
    AllListed(t) && (es == [] || AlwaysListed(Step(t, es[0]), es[1..]))
  }

  /** A rename finds its name in the list, and a name that leaves the list has no directory. */
  predicate Timely(t: Tasks, e: Event) {
    match e
    case Install(n, _) => n in Names(t.cache)
    case Forget(n, _) => n !in t.cache.dirs
    case End(n, _) => Leaving(t).None? || Leaving(t).value !in t.cache.dirs
    case _ => true
  }

  predicate InTime(t: Tasks, es: seq<Event>)
    requires Legal(t, es)
    decreases |es|
  {
    es == [] || (Timely(t, es[0]) && InTime(Step(t, es[0]), es[1..]))
  }

  /**
    In every interleaving, whatever fails: all through it, every complete directory is listed, if
    and only if each rename finds its name in the list, and each name that leaves the list has no
    directory at that moment.
   */
  lemma {:induction false} NothingForgottenIff(t: Tasks, es: seq<Event>)
    requires AllListed(t) && Legal(t, es) && PlainEvents(es)
    ensures AlwaysListed(t, es) <==> InTime(t, es)
    decreases |es|
  {
    if es != [] {
      assert es[0] in es;
      match es[0] {
        case Install(n, id) => InstallIff(t, n, id);
        case Forget(n, saves) => ForgetIff(t, n, saves);
        case End(n, saves) => EndIff(t, n, saves);
        case _ => StepKeepsListed(t, es[0]);
      }
      if AllListed(Step(t, es[0])) {
        NothingForgottenIff(Step(t, es[0]), es[1..]);
      }
    }
  }

  // ------------------------------------------------------------------------
  // How long the list is.
  // ------------------------------------------------------------------------

  /** A list that is too long, and could not be shortened. */
  function FailedEviction(t: Tasks, e: Event): nat
    requires Enabled(t, e)
  {
    if e.End? && |Without(Names(t.cache), e.name)| >= KEEP_LRU && !t.touching.value.evicts then 1 else 0
  }

  function FailedIn(t: Tasks, es: seq<Event>): nat
    requires Legal(t, es)
    decreases |es|
  {
    if es == [] then 0 else FailedEviction(t, es[0]) + FailedIn(Step(t, es[0]), es[1..])
  }

  lemma UseBounds(l: seq<string>, name: string, evicts: bool)
    requires NoDuplicates(l)
    ensures var l' := AfterUse(l, name, evicts);
            && NoDuplicates(l')
            && |l'| <= (if |l| > KEEP_LRU then |l| else KEEP_LRU) +
                       (if |Without(l, name)| >= KEEP_LRU && !evicts then 1 else 0)
  {
    WithoutFacts(l, name);
    AllButLast([name] + Without(l, name));
  }

  lemma StepBounds(t: Tasks, e: Event)
    requires NoDuplicates(Names(t.cache)) && Enabled(t, e)
    ensures var l, l' := Names(t.cache), Names(Step(t, e).cache);
            NoDuplicates(l') && |l'| <= (if |l| > KEEP_LRU then |l| else KEEP_LRU) + FailedEviction(t, e)
  {
    var l := Names(t.cache);
    match e
    case End(n, _) => UseBounds(l, n, t.touching.value.evicts);
    case Forget(n, _) =>
      OthersIsWithout(l, n);
      WithoutFacts(l, n);
    case _ =>
  }

  /** In every interleaving the list names nothing twice, and exceeds five only by evictions that failed. */
  lemma {:induction false} ListStaysShort(t: Tasks, es: seq<Event>, failed: nat)
    requires NoDuplicates(Names(t.cache)) && |Names(t.cache)| <= KEEP_LRU + failed && Legal(t, es)
    ensures var l := Names(ExecTasks(t, es).cache);
            NoDuplicates(l) && |l| <= KEEP_LRU + failed + FailedIn(t, es)
    decreases |es|
  {
    if es != [] {
      StepBounds(t, es[0]);
      ListStaysShort(Step(t, es[0]), es[1..], failed + FailedEviction(t, es[0]));
    }
  }

  // ------------------------------------------------------------------------
  // When a name is still listed.
  // ------------------------------------------------------------------------

  datatype Mark = Used(name: string) | Deleted(name: string)

  /** Whether a name is listed, and which others were used since it was, and not deleted since they were. */
  datatype Rank = Out | In(ahead: set<string>)

  /** A name is out when it is deleted, and when a fifth other name gets ahead of it. */
  function NextRank(r: Rank, n: string, mark: Mark): Rank {
    match mark
    case Used(m) =>
      if m == n then In({})
      else if r.Out? || |r.ahead + {m}| >= KEEP_LRU then Out
      else In(r.ahead + {m})
    case Deleted(m) => if m == n || r.Out? then Out else In(r.ahead - {m})
  }

  function RankAfter(r: Rank, n: string, marks: seq<Mark>): Rank
    decreases |marks|
  {
    if marks == [] then r else RankAfter(NextRank(r, n, marks[0]), n, marks[1..])
  }

  /** The uses and deletions that a step comes to. */
  function MarkOf(e: Event): seq<Mark> {
    match e
    case End(n, _) => [Used(n)]
    case Forget(n, _) => [Deleted(n)]
    case _ => []
  }

  function Marks(es: seq<Event>): seq<Mark>
    decreases |es|
  {
    if es == [] then [] else MarkOf(es[0]) + Marks(es[1..])
  }

  /** The names before `n` in the list. */
  function Before(l: seq<string>, n: string): set<string> {
    if l == [] || l[0] == n then {} else {l[0]} + Before(l[1..], n)
  }

  lemma {:induction false} BeforeWithin(l: seq<string>, n: string)
    ensures n !in Before(l, n) && forall m | m in Before(l, n) :: m in l
    decreases |l|
  {
    if l != [] && l[0] != n {
      BeforeWithin(l[1..], n);
    }
  }

  lemma {:induction false} BeforeSize(l: seq<string>, n: string) returns (i: nat)
    requires NoDuplicates(l) && n in l
    ensures i < |l| && l[i] == n && |Before(l, n)| == i
    decreases |l|
  {
    i := 0;
    if l[0] != n {
      TailDistinct(l);
      i := BeforeSize(l[1..], n);
      BeforeWithin(l[1..], n);
      i := i + 1;
    }
  }

  lemma BeforeFacts(l: seq<string>, n: string)
    requires NoDuplicates(l) && n in l
    ensures |Before(l, n)| < |l| && n !in Before(l, n) && forall m | m in Before(l, n) :: m in l
    ensures l[|l|-1] == n ==> |Before(l, n)| == |l| - 1
  {
    BeforeWithin(l, n);
    var i := BeforeSize(l, n);
  }

  lemma {:induction false} BeforeWithout(l: seq<string>, m: string, n: string)
    requires NoDuplicates(l) && n in l && m != n
    ensures Before(Without(l, m), n) == Before(l, n) - {m}
  {
    if l[0] == m {
      NotBefore(l[1..], m, n);
    } else if l[0] != n {
      BeforeWithout(l[1..], m, n);
    }
  }

  lemma {:induction false} NotBefore(l: seq<string>, m: string, n: string)
    requires m !in l
    ensures m !in Before(l, n)
  {
    if l != [] && l[0] != n {
      NotBefore(l[1..], m, n);
    }
  }

  lemma {:induction false} BeforeInPart(l: seq<string>, rest: seq<string>, n: string)
    requires n in l
    ensures n in l + rest && Before(l + rest, n) == Before(l, n)
  {
    if l[0] != n {
      BeforeInPart(l[1..], rest, n);
      assert (l + rest)[1..] == l[1..] + rest;
    }
  }

  /** The name is in the list with these ahead of it; `exact` if it is out of it otherwise. */
  ghost predicate Ranked(l: seq<string>, n: string, r: Rank, exact: bool) {
    && (r.In? ==> n in l && Before(l, n) == r.ahead)
    && (exact ==> |l| <= KEEP_LRU && (n in l ==> r.In?))
  }

  lemma BeforeUsed(l: seq<string>, m: string, n: string)
    requires NoDuplicates(l) && n in l
    ensures var used := [m] + Without(l, m);
            NoDuplicates(used) && n in used && Before(used, n) == if m == n then {} else Before(l, n) + {m}
  {
    var used := [m] + Without(l, m);
    WithoutFacts(l, m);
    assert used[1..] == Without(l, m);
    if m != n {
      BeforeWithout(l, m, n);
    }
  }

  lemma BeforeLastOff(used: seq<string>, n: string)
    requires used != [] && NoDuplicates(used) && n in used
    ensures var rest := used[..|used|-1];
            if n == used[|used|-1] then n !in rest && |Before(used, n)| == |used| - 1
            else n in rest && Before(rest, n) == Before(used, n) && |Before(rest, n)| < |rest|
  {
    AllButLast(used);
    BeforeLast(used[..|used|-1], used[|used|-1], n);
    assert used == used[..|used|-1] + [used[|used|-1]];
  }

  lemma BeforeLast(rest: seq<string>, last: string, n: string)
    requires NoDuplicates(rest + [last]) && n in rest + [last] && NoDuplicates(rest) && last !in rest
    ensures if n == last then |Before(rest + [last], n)| == |rest|
            else n in rest && Before(rest, n) == Before(rest + [last], n) && |Before(rest, n)| < |rest|
  {
    BeforeFacts(rest + [last], n);
    if n in rest {
      BeforeInPart(rest, [last], n);
      BeforeFacts(rest, n);
    }
  }

  /** After the eviction that a use may bring, a name is listed if fewer than five are ahead of it. */
  lemma AfterEviction(used: seq<string>, l: seq<string>, n: string)
    requires NoDuplicates(used) && n in used
    requires l == used || (|used| > KEEP_LRU && l == used[..|used|-1])
    ensures |Before(used, n)| < KEEP_LRU ==> n in l
    ensures n in l ==> Before(l, n) == Before(used, n)
    ensures n in l && |l| <= KEEP_LRU ==> |Before(used, n)| < KEEP_LRU
  {
    BeforeLastOff(used, n);
    BeforeFacts(used, n);
  }

  lemma NotUsed(l: seq<string>, l': seq<string>, m: string, n: string)
    requires NoDuplicates(l) && n !in l && m != n
    requires var used := [m] + Without(l, m); l' == used || (|used| > KEEP_LRU && l' == used[..|used|-1])
    ensures n !in l'
  {
    WithoutFacts(l, m);
  }

  lemma AfterUseIs(l: seq<string>, m: string, evicts: bool)
    requires NoDuplicates(l)
    ensures var used, l' := [m] + Without(l, m), AfterUse(l, m, evicts);
            && (l' == used || (|used| > KEEP_LRU && l' == used[..|used|-1]))
            && (evicts && |l| <= KEEP_LRU ==> |l'| <= KEEP_LRU)
  {
    WithoutFacts(l, m);
  }

  lemma UsedRank(l: seq<string>, m: string, evicts: bool, n: string, r: Rank, exact: bool)
    requires NoDuplicates(l) && Ranked(l, n, r, exact) && (exact ==> evicts)
    ensures Ranked(AfterUse(l, m, evicts), n, NextRank(r, n, Used(m)), exact)
  {
    var l' := AfterUse(l, m, evicts);
    AfterUseIs(l, m, evicts);
    if m == n {
      UsedFirst(l, n);
      AfterEviction([n] + Without(l, n), l', n);
    } else if n in l {
      BeforeUsed(l, m, n);
      AfterEviction([m] + Without(l, m), l', n);
    } else {
      NotUsed(l, l', m, n);
    }
  }

  lemma UsedFirst(l: seq<string>, n: string)
    requires NoDuplicates(l)
    ensures var used := [n] + Without(l, n); NoDuplicates(used) && n in used && Before(used, n) == {}
  {
    WithoutFacts(l, n);
    assert ([n] + Without(l, n))[0] == n;
  }

  lemma OneMark(r: Rank, n: string, mark: Mark)
    ensures RankAfter(r, n, [mark]) == NextRank(r, n, mark)
  {
    assert [mark][1..] == [];
  }

  lemma DeletedRank(l: seq<string>, m: string, n: string, r: Rank, exact: bool)
    requires NoDuplicates(l) && Ranked(l, n, r, exact)
    ensures Ranked(Others(l, m), n, NextRank(r, n, Deleted(m)), exact)
  {
    OthersIsWithout(l, m);
    WithoutFacts(l, m);
    if n in l && m != n {
      BeforeWithout(l, m, n);
    }
  }

  /** No use in progress, or begun by this step, has failed to remove what it should. */
  predicate Evicting(t: Tasks) {
    t.touching.Some? ==> t.touching.value.evicts
  }

  predicate Removable(e: Event) {
    e.Begin? ==> e.removes
  }

  lemma StepRank(t: Tasks, e: Event, n: string, r: Rank, exact: bool)
    requires NoDuplicates(Names(t.cache)) && Enabled(t, e)
    requires Ranked(Names(t.cache), n, r, exact) && (exact ==> Removable(e) && Evicting(t))
    ensures Ranked(Names(Step(t, e).cache), n, RankAfter(r, n, MarkOf(e)), exact)
    ensures exact ==> Evicting(Step(t, e))
  {
    var l := Names(t.cache);
    match e
    case End(m, _) =>
      UsedRank(l, m, t.touching.value.evicts, n, r, exact);
      OneMark(r, n, Used(m));
    case Forget(m, _) =>
      DeletedRank(l, m, n, r, exact);
      OneMark(r, n, Deleted(m));
    case _ =>
  }

  lemma {:induction false} RankAlong(t: Tasks, es: seq<Event>, n: string, r: Rank, exact: bool)
    requires NoDuplicates(Names(t.cache)) && Legal(t, es)
    requires Ranked(Names(t.cache), n, r, exact)
    requires exact ==> Evicting(t) && forall e | e in es :: Removable(e)
    ensures Ranked(Names(ExecTasks(t, es).cache), n, RankAfter(r, n, Marks(es)), exact)
    decreases |es|
  {
    if es != [] {
      assert es[0] in es;
      StepBounds(t, es[0]);
      StepRank(t, es[0], n, r, exact);
      RankAlong(Step(t, es[0]), es[1..], n, RankAfter(r, n, MarkOf(es[0])), exact);
      RankOfBoth(r, n, MarkOf(es[0]), Marks(es[1..]));
    }
  }

  lemma {:induction false} RankOfBoth(r: Rank, n: string, a: seq<Mark>, b: seq<Mark>)
    ensures RankAfter(r, n, a + b) == RankAfter(RankAfter(r, n, a), n, b)
    decreases |a|
  {
    if a == [] {
      assert a + b == b;
    } else {
      RankOfBoth(NextRank(r, n, a[0]), n, a[1..], b);
      assert (a + b)[1..] == a[1..] + b;
    }
  }

  /**
    A creation that has used its name and waits for its rename: whatever fails, the name is still
    listed while it was not deleted and fewer than five others got ahead of it; and no longer, if
    no eviction fails.
   */
  lemma ListedAtRenameIff(t: Tasks, n: string, saves: WriteOutcome, es: seq<Event>)
    requires NoDuplicates(Names(t.cache)) && |Names(t.cache)| <= KEEP_LRU && Evicting(t)
    requires Enabled(t, End(n, saves)) && Legal(Step(t, End(n, saves)), es)
    ensures var t1 := Step(t, End(n, saves));
            var listed, rank := n in Names(ExecTasks(t1, es).cache), RankAfter(In({}), n, Marks(es));
            && (rank.In? ==> listed)
            && ((forall e | e in es :: Removable(e)) ==> (listed <==> rank.In?))
  {
    var t1, l := Step(t, End(n, saves)), Names(t.cache);
    StepBounds(t, End(n, saves));
    UsedRank(l, n, true, n, if n in l then In(Before(l, n)) else Out, true);
    RankAlong(t1, es, n, In({}), false);
    if forall e | e in es :: Removable(e) {
      RankAlong(t1, es, n, In({}), true);
    }
  }

  /** So a name is still listed if it was not deleted and fewer than five others were used. */
  lemma {:induction false} FewUses(ahead: set<string>, n: string, marks: seq<Mark>, others: set<string>)
    requires Deleted(n) !in marks && ahead <= others && |others| < KEEP_LRU
    requires forall m | Used(m) in marks && m != n :: m in others
    ensures RankAfter(In(ahead), n, marks).In?
    decreases |marks|
  {
    if marks != [] {
      assert marks[0] in marks;
      var next := NextRank(In(ahead), n, marks[0]);
      if marks[0].Used? && marks[0].name != n {
        SubsetIsSmaller(ahead + {marks[0].name}, others);
      }
      FewUses(next.ahead, n, marks[1..], others);
    }
  }

  lemma {:induction false} SubsetIsSmaller(a: set<string>, b: set<string>)
    requires a <= b
    ensures |a| <= |b|
    decreases a
  {
    if x :| x in a {
      SubsetIsSmaller(a - {x}, b - {x});
    }
  }

  // ------------------------------------------------------------------------
  // Whose directory is installed.
  // ------------------------------------------------------------------------

  /** The creations under way are older than the next; those that do not make their directory any more finished it. */
  ghost predicate Numbered(t: Tasks) {
    && (forall id | id in t.creations :: id < t.next && (t.creations[id].phase != Making ==> id in t.finished))
    && (forall id | id in t.finished :: id < t.next)
    && (forall n | n in t.makers :: t.makers[n] < t.next)
    && (t.touching.Some? && t.touching.value.creation.Some? ==> Has(t, t.touching.value.creation.value, Creation(t.touching.value.name, Made)))
  }

  lemma StepKeepsNumbered(t: Tasks, e: Event)
    requires Numbered(t) && Enabled(t, e)
    ensures Numbered(Step(t, e))
  {
  }

  /** The creation that is the last to set up the staging directory of a name, after that of `maker`. */
  function LastMaker(t: Tasks, es: seq<Event>, n: string, maker: nat): nat
    requires Legal(t, es)
    decreases |es|
  {
    if es == [] then maker
    else LastMaker(Step(t, es[0]), es[1..], n, if es[0] == Stage(n) && n !in t.cache.dirs then t.next else maker)
  }

  predicate SetUpAgain(t: Tasks, es: seq<Event>, n: string)
    requires Legal(t, es)
    decreases |es|
  {
    es != [] && ((es[0] == Stage(n) && n !in t.cache.dirs) || SetUpAgain(Step(t, es[0]), es[1..], n))
  }

  lemma {:induction false} MakerAlong(t: Tasks, es: seq<Event>, n: string)
    requires Numbered(t) && Legal(t, es) && n in t.makers
    ensures var t' := ExecTasks(t, es);
            && Numbered(t') && n in t'.makers && t'.makers[n] == LastMaker(t, es, n, t.makers[n])
            && (if SetUpAgain(t, es, n) then t.next <= t'.makers[n] else t'.makers[n] == t.makers[n])
            && t.next <= t'.next
    decreases |es|
  {
    if es != [] {
      StepKeepsNumbered(t, es[0]);
      MakerAlong(Step(t, es[0]), es[1..], n);
    }
  }

  /**
    What a rename installs was made by the creation that set up the staging directory last. That is
    the renaming one, and then it is finished, if and only if no other set it up since.
   */
  lemma InstallsWhatWasMadeLast(t: Tasks, n: string, es: seq<Event>)
    requires Numbered(t) && n !in t.cache.dirs && Legal(Step(t, Stage(n)), es)
    requires Enabled(ExecTasks(Step(t, Stage(n)), es), Install(n, t.next))
    ensures var t1 := Step(t, Stage(n));
            var t2 := ExecTasks(t1, es);
            && n in t2.makers && t2.makers[n] == LastMaker(t1, es, n, t.next)
            && (t2.makers[n] == t.next <==> !SetUpAgain(t1, es, n))
            && t.next in t2.finished
  {
    StepKeepsNumbered(t, Stage(n));
    MakerAlong(Step(t, Stage(n)), es, n);
  }

  // ------------------------------------------------------------------------
  // Operations that nothing comes between.
  // ------------------------------------------------------------------------

  lemma {:induction false} ExecBoth(t: Tasks, a: seq<Event>, b: seq<Event>)
    requires Legal(t, a) && Legal(ExecTasks(t, a), b)
    ensures Legal(t, a + b) && ExecTasks(t, a + b) == ExecTasks(ExecTasks(t, a), b)
    decreases |a|
  {
    if a == [] {
      assert a + b == b;
    } else {
      ExecBoth(Step(t, a[0]), a[1..], b);
      SplitOff(a, b);
    }
  }

  lemma SplitOff(a: seq<Event>, b: seq<Event>)
    requires a != []
    ensures (a + b)[0] == a[0] && (a + b)[1..] == a[1..] + b
  {
  }

  lemma {:induction false} InTimeBoth(t: Tasks, a: seq<Event>, b: seq<Event>)
    requires Legal(t, a) && Legal(ExecTasks(t, a), b) && Legal(t, a + b)
    requires InTime(t, a) && InTime(ExecTasks(t, a), b)
    ensures InTime(t, a + b)
    decreases |a|
  {
    if a == [] {
      assert a + b == b;
    } else {
      SplitOff(a, b);
      InTimeBoth(Step(t, a[0]), a[1..], b);
    }
  }

  /** One step more at the end of a run. */
  lemma Then(t: Tasks, es: seq<Event>, e: Event)
    requires Legal(t, es) && Enabled(ExecTasks(t, es), e)
    ensures Legal(t, es + [e]) && ExecTasks(t, es + [e]) == Step(ExecTasks(t, es), e)
    ensures InTime(t, es) && Timely(ExecTasks(t, es), e) ==> InTime(t, es + [e])
  {
    assert [e][1..] == [];
    ExecBoth(t, es, [e]);
    if InTime(t, es) && Timely(ExecTasks(t, es), e) {
      InTimeBoth(t, es, [e]);
    }
  }

  predicate Idle(t: Tasks) {
    t.creations == map[] && t.forgetting == multiset{} && t.touching.None?
  }

  /** The steps of one operation by itself. */
  function EventsOf(t: Tasks, op: Op, k: Luck): seq<Event> {
    var n, dirs := op.name, t.cache.dirs;
    match op
    case ExistsOp(_) => if n in dirs then [Begin(n, None, k.removes)] + [End(n, k.saves)] else []
    case DeleteOp(_) =>
      if n in dirs && !k.removes then [Remove(n, false)] else [Remove(n, k.removes)] + [Forget(n, k.saves)]
    case CreateOp(_) =>
      if n in dirs then [Stage(n)]
      else if !k.creates then [Stage(n)] + [Abandon(n, t.next)]
      else
        [Stage(n)] + [Finish(n, t.next)] + [Begin(n, Some(t.next), k.removes)] + [End(n, k.saves)] +
        [if Renamed(k.renames) then Install(n, t.next) else GiveUp(n, t.next)]
  }

  lemma UseByItself(t: Tasks, n: string, creation: Option<nat>, removes: bool, saves: WriteOutcome)
    requires AllListed(t) && Plain(n) && Enabled(t, Begin(n, creation, removes))
    ensures var t1 := Step(t, Begin(n, creation, removes));
            && Enabled(t1, End(n, saves)) && Timely(t1, End(n, saves))
            && Step(t1, End(n, saves)).cache == Touch(t.cache, n, Luck(removes, saves, true, []))
            && AllListed(Step(t1, End(n, saves))) && n in Names(Step(t1, End(n, saves)).cache)
            && (forall d | d in t.cache.dirs && !Plain(d) :: d in t1.cache.dirs)
            && t1.cache.dirs <= t.cache.dirs
  {
    var l, t1 := Names(t.cache), Step(t, Begin(n, creation, removes));
    var used := [n] + Without(l, n);
    BothHalves(l, t.cache.dirs, n, removes);
    TouchedFacts(l, t.cache.dirs, n, removes);
    StepKeepsListed(t, Begin(n, creation, removes));
    WithoutFacts(l, n);
    assert used[|used|-1] == n || used[|used|-1] in Without(l, n);
    EndIff(t1, n, saves);
  }

  lemma ExecOne(t: Tasks, e: Event)
    requires Enabled(t, e)
    ensures Legal(t, [e]) && ExecTasks(t, [e]) == Step(t, e)
    ensures InTime(t, [e]) <==> Timely(t, e)
  {
    assert [e][1..] == [];
  }

  /** A creation of `n` whose directory is made. */
  function MadeReady(t: Tasks, n: string): Tasks {
    t.(cache := Staged(t.cache, n), creations := t.creations[t.next := Creation(n, Made)],
       makers := t.makers[n := t.next], next := t.next + 1, finished := t.finished + {t.next})
  }

  lemma MadeFacts(t: Tasks, n: string)
    requires n !in t.cache.dirs
    ensures var es := [Stage(n)] + [Finish(n, t.next)];
            Legal(t, es) && InTime(t, es) && ExecTasks(t, es) == MadeReady(t, n)
  {
    var t1 := Step(t, Stage(n));
    assert t1.creations[t.next := Creation(n, Made)] == t.creations[t.next := Creation(n, Made)];
    assert Step(t1, Finish(n, t.next)) == MadeReady(t, n);
    ExecOne(t, Stage(n));
    Then(t, [Stage(n)], Finish(n, t.next));
  }

  /** A creation sets up its directory, makes it, and begins to use its name. */
  function Begun(t: Tasks, n: string, removes: bool): seq<Event> {
    [Stage(n)] + [Finish(n, t.next)] + [Begin(n, Some(t.next), removes)]
  }

  lemma BegunFacts(t: Tasks, n: string, removes: bool)
    requires n !in t.cache.dirs && t.touching.None?
    ensures Enabled(MadeReady(t, n), Begin(n, Some(t.next), removes))
    ensures Legal(t, Begun(t, n, removes)) && InTime(t, Begun(t, n, removes))
    ensures ExecTasks(t, Begun(t, n, removes)) == Step(MadeReady(t, n), Begin(n, Some(t.next), removes))
  {
    MadeFacts(t, n);
    Then(t, [Stage(n)] + [Finish(n, t.next)], Begin(n, Some(t.next), removes));
  }

  function Started(t: Tasks, n: string, k: Luck): seq<Event> {
    Begun(t, n, k.removes) + [End(n, k.saves)]
  }

  lemma StartedFacts(t: Tasks, n: string, k: Luck)
    requires AllListed(t) && Plain(n) && n !in t.cache.dirs && t.touching.None?
    ensures Legal(t, Started(t, n, k)) && InTime(t, Started(t, n, k))
    ensures var t' := ExecTasks(t, Started(t, n, k));
            && t'.cache == Touch(Staged(t.cache, n), n, k) && AllListed(t') && n in Names(t'.cache)
            && t'.creations == t.creations[t.next := Creation(n, Waiting)] && t'.forgetting == t.forgetting
            && t'.touching.None? && t'.next == t.next + 1 && Staging(n) in t'.cache.dirs
            && t'.makers == t.makers[n := t.next] && t'.finished == t.finished + {t.next}
  {
    var t2 := MadeReady(t, n);
    StagingIsNotPlain(n);
    BegunFacts(t, n, k.removes);
    UseByItself(t2, n, Some(t.next), k.removes, k.saves);
    Then(t, Begun(t, n, k.removes), End(n, k.saves));
    assert t2.creations[t.next := Creation(n, Waiting)] == t.creations[t.next := Creation(n, Waiting)];
  }

  lemma CreationIsInTime(t: Tasks, n: string, k: Luck)
    requires Idle(t) && AllListed(t) && Plain(n) && n !in t.cache.dirs && k.creates
    ensures Legal(t, EventsOf(t, CreateOp(n), k)) && InTime(t, EventsOf(t, CreateOp(n), k))
    ensures var t' := ExecTasks(t, EventsOf(t, CreateOp(n), k));
            Idle(t') && t'.cache == Create(t.cache, n, k).0
  {
    StartedFacts(t, n, k);
    var last := if Renamed(k.renames) then Install(n, t.next) else GiveUp(n, t.next);
    Then(t, Started(t, n, k), last);
    var t' := Step(ExecTasks(t, Started(t, n, k)), last);
    assert t'.creations == map[];
  }

  lemma UseIsInTime(t: Tasks, n: string, k: Luck)
    requires Idle(t) && AllListed(t) && Plain(n) && n in t.cache.dirs
    ensures Legal(t, EventsOf(t, ExistsOp(n), k)) && InTime(t, EventsOf(t, ExistsOp(n), k))
    ensures var t' := ExecTasks(t, EventsOf(t, ExistsOp(n), k));
            Idle(t') && t'.cache == Exists(t.cache, n, k).0
  {
    ExecOne(t, Begin(n, None, k.removes));
    UseByItself(t, n, None, k.removes, k.saves);
    Then(t, [Begin(n, None, k.removes)], End(n, k.saves));
  }

  lemma DeletionIsInTime(t: Tasks, n: string, k: Luck)
    requires Idle(t)
    ensures Legal(t, EventsOf(t, DeleteOp(n), k)) && InTime(t, EventsOf(t, DeleteOp(n), k))
    ensures var t' := ExecTasks(t, EventsOf(t, DeleteOp(n), k));
            Idle(t') && t'.cache == Delete(t.cache, n, k).0
  {
    ExecOne(t, Remove(n, k.removes));
    if n !in t.cache.dirs || k.removes {
      Then(t, [Remove(n, k.removes)], Forget(n, k.saves));
      assert multiset{n} - multiset{n} == multiset{};
    }
  }

  /** An operation by itself is a run of its steps, in which nothing is late. */
  lemma OpIsInTime(t: Tasks, op: Op, k: Luck)
    requires Idle(t) && AllListed(t) && Plain(op.name)
    ensures Legal(t, EventsOf(t, op, k)) && InTime(t, EventsOf(t, op, k))
    ensures var t' := ExecTasks(t, EventsOf(t, op, k)); Idle(t') && t'.cache == Apply(t.cache, op, k).0
  {
    match op
    case ExistsOp(n) =>
      if n in t.cache.dirs {
        UseIsInTime(t, n, k);
      }
    case DeleteOp(n) => DeletionIsInTime(t, n, k);
    case CreateOp(n) =>
      if n in t.cache.dirs {
        ExecOne(t, Stage(n));
      } else if !k.creates {
        ExecOne(t, Stage(n));
        Then(t, [Stage(n)], Abandon(n, t.next));
        assert map[t.next := Creation(n, Making)] - {t.next} == map[];
      } else {
        CreationIsInTime(t, n, k);
      }
  }

  /**
    So operations one after the other are a run of such steps in which nothing is late, and nothing
    is forgotten.
   */
  lemma {:induction false} OneAfterTheOther(t: Tasks, runs: seq<Run>) returns (es: seq<Event>)
    requires Idle(t) && AllListed(t) && PlainRuns(runs)
    ensures Legal(t, es) && InTime(t, es)
    ensures Idle(ExecTasks(t, es)) && ExecTasks(t, es).cache == Exec(t.cache, runs)
    decreases |runs|
  {
    es := [];
    if runs != [] {
      assert runs[0] in runs;
      var op, k := runs[0].op, runs[0].luck;
      var e1 := EventsOf(t, op, k);
      OpIsInTime(t, op, k);
      OpKeepsListed(t.cache, op, k);
      var e2 := OneAfterTheOther(ExecTasks(t, e1), runs[1..]);
      ExecBoth(t, e1, e2);
      InTimeBoth(t, e1, e2);
      es := e1 + e2;
    }
  }

  // ------------------------------------------------------------------------
  // Runs that forget a directory.
  // ------------------------------------------------------------------------

  const FINE := Luck(true, Written, true, [true])

  predicate NoneComplete(t: Tasks) {
    forall d | d in t.cache.dirs :: !Plain(d)
  }

  /** A list after the use of a new name; its last name goes if there are too many. */
  function Newest(l: seq<string>, n: string): seq<string> {
    if |l| < KEEP_LRU then [n] + l else ([n] + l)[..|l|]
  }

  lemma NewestFacts(l: seq<string>, n: string)
    requires 0 < |l| < KEEP_LRU
    ensures var l' := Newest(l, n);
            |l'| == |l| + 1 && l'[|l'|-1] == l[|l|-1] && forall m :: m in l' <==> m == n || m in l
  {
  }

  lemma TailDistinct(names: seq<string>)
    requires names != [] && NoDuplicates(names)
    ensures NoDuplicates(names[1..]) && names[0] !in names[1..] && forall m | m in names[1..] :: m in names
  {
  }

  lemma TouchNew(c: Cache, n: string)
    requires n !in Names(c) && Plain(n) && (forall m | m in Names(c) :: Plain(m)) && forall d | d in c.dirs :: !Plain(d)
    ensures Names(Touch(c, n, FINE)) == Newest(Names(c), n) && Touch(c, n, FINE).dirs == c.dirs
  {
    NothingToRemove(Names(c), n);
    var used := [n] + Names(c);
    assert used[|used|-1] == n || used[|used|-1] in Names(c);
  }

  lemma {:induction false} NothingToRemove(l: seq<string>, n: string)
    requires n !in l
    ensures Without(l, n) == l
  {
    if l != [] {
      NothingToRemove(l[1..], n);
    }
  }

  /** Whoever was under way still is, and no directory is gone. */
  ghost predicate Follows(t: Tasks, after: Tasks) {
    && t.cache.dirs <= after.cache.dirs && t.next <= after.next
    && forall id | id in t.creations && id < t.next :: id in after.creations && after.creations[id] == t.creations[id]
  }

  /** A creation begins, and uses its name, among others that wait for their renames. */
  lemma Start(t: Tasks, n: string) returns (es: seq<Event>, after: Tasks)
    requires AllListed(t) && Plain(n) && n !in Names(t.cache) && NoneComplete(t) && t.touching.None?
    ensures Legal(t, es) && InTime(t, es) && ExecTasks(t, es) == after
    ensures AllListed(after) && NoneComplete(after) && after.touching.None? && Follows(t, after)
    ensures Has(after, t.next, Creation(n, Waiting)) && t.next < after.next && Staging(n) in after.cache.dirs
    ensures Names(after.cache) == Newest(Names(t.cache), n) && after.forgetting == t.forgetting
  {
    StagingIsNotPlain(n);
    StartedFacts(t, n, FINE);
    es, after := Started(t, n, FINE), ExecTasks(t, Started(t, n, FINE));
    TouchNew(Staged(t.cache, n), n);
  }

  /** What `StartAll` asks of the list still holds after the first of the names. */
  lemma ReadyForMore(l: seq<string>, names: seq<string>)
    requires l != [] && names != [] && |l| + |names| <= KEEP_LRU && NoDuplicates(names)
    requires forall n | n in names :: Plain(n) && n !in l
    ensures var l' := Newest(l, names[0]);
            && |l'| == |l| + 1 && l'[|l'|-1] == l[|l|-1] && NoDuplicates(names[1..])
            && (forall n | n in names[1..] :: Plain(n) && n !in l')
            && forall m | m in l' || m in names[1..] :: m in l || m in names
  {
    assert names[0] in names;
    TailDistinct(names);
    NewestFacts(l, names[0]);
  }

  /** A state in which creations are under way, and `first` is last in a list that has room for `more`. */
  ghost predicate UnderWay(t: Tasks, more: seq<string>, first: string) {
    var l := Names(t.cache);
    && AllListed(t) && NoneComplete(t) && t.touching.None?
    && |l| + |more| <= KEEP_LRU && l != [] && l[|l|-1] == first
    && NoDuplicates(more) && forall n | n in more :: Plain(n) && n !in l
  }

  lemma StartNext(t: Tasks, names: seq<string>, first: string) returns (es: seq<Event>, after: Tasks)
    requires names != [] && UnderWay(t, names, first)
    ensures Legal(t, es) && InTime(t, es) && ExecTasks(t, es) == after && UnderWay(after, names[1..], first)
    ensures Follows(t, after) && |Names(after.cache)| == |Names(t.cache)| + 1
    ensures forall m | m in Names(after.cache) || m in names[1..] :: m in Names(t.cache) || m in names
  {
    assert names[0] in names;
    es, after := Start(t, names[0]);
    ReadyForMore(Names(t.cache), names);
  }

  /** Several creations begin, without pushing out `first`. */
  lemma {:induction false} StartAll(t: Tasks, names: seq<string>, first: string) returns (es: seq<Event>, after: Tasks)
    requires UnderWay(t, names, first)
    ensures Legal(t, es) && InTime(t, es) && ExecTasks(t, es) == after && UnderWay(after, [], first)
    ensures Follows(t, after) && |Names(after.cache)| == |Names(t.cache)| + |names|
    ensures forall m | m in Names(after.cache) :: m in Names(t.cache) || m in names
    decreases |names|
  {
    es, after := [], t;
    if names != [] {
      var e1, t1 := StartNext(t, names, first);
      var e2;
      e2, after := StartAll(t1, names[1..], first);
      ExecBoth(t, e1, e2);
      InTimeBoth(t, e1, e2);
      es := e1 + e2;
    }
  }

  /** Five creations that wait for their renames, `first` longest. */
  lemma FiveWaiting(first: string, others: seq<string>) returns (es: seq<Event>, after: Tasks)
    requires |others| == 4 && NoDuplicates(others) && first !in others
    requires Plain(first) && forall n | n in others :: Plain(n)
    ensures Legal(IDLE, es) && InTime(IDLE, es) && ExecTasks(IDLE, es) == after
    ensures UnderWay(after, [], first) && |Names(after.cache)| == KEEP_LRU
    ensures Has(after, 0, Creation(first, Waiting)) && 0 < after.next && Staging(first) in after.cache.dirs
    ensures forall m | m in Names(after.cache) :: m == first || m in others
  {
    var e1, t1 := Start(IDLE, first);
    assert Names(t1.cache) == [first];
    var e2;
    e2, after := StartAll(t1, others, first);
    ExecBoth(IDLE, e1, e2);
    InTimeBoth(IDLE, e1, e2);
    es := e1 + e2;
  }

  /** Six creations that wait for their renames at once: the first rename forgets its directory. */
  lemma SixAtOnce(first: string, others: seq<string>, last: string) returns (es: seq<Event>)
    requires |others| == 4 && NoDuplicates(others) && first !in others && last !in others && first != last
    requires Plain(first) && Plain(last) && forall n | n in others :: Plain(n)
    ensures Legal(IDLE, es) && InTime(IDLE, es) && Enabled(ExecTasks(IDLE, es), Install(first, 0))
    ensures var t := Step(ExecTasks(IDLE, es), Install(first, 0)); first in t.cache.dirs && first !in Names(t.cache)
  {
    var e1, t1 := FiveWaiting(first, others);
    var e2, t2 := Start(t1, last);
    LastGoes(Names(t1.cache), last, first);
    ExecBoth(IDLE, e1, e2);
    InTimeBoth(IDLE, e1, e2);
    es := e1 + e2;
  }

  lemma LastGoes(l: seq<string>, n: string, first: string)
    requires NoDuplicates(l) && |l| == KEEP_LRU && l[|l|-1] == first && n != first
    ensures first !in Newest(l, n)
  {
  }

  /**
    A use looks for the directory of the oldest name before the rename that installs it, and takes
    the name off the list after it: the rename was in time, and the directory is forgotten.
   */
  lemma EvictedWhileInstalled(first: string, others: seq<string>, last: string) returns (es: seq<Event>)
    requires |others| == 4 && NoDuplicates(others) && first !in others && last !in others && first != last
    requires Plain(first) && Plain(last) && forall n | n in others :: Plain(n)
    ensures Legal(IDLE, es) && InTime(IDLE, es) && Enabled(ExecTasks(IDLE, es), End(last, Written))
    ensures var t := Step(ExecTasks(IDLE, es), End(last, Written)); first in t.cache.dirs && first !in Names(t.cache)
  {
    var e1, t1 := FiveWaiting(first, others);
    var e2 := Begun(t1, last, true);
    MidUse(t1, first, last);
    ExecBoth(IDLE, e1, e2);
    InTimeBoth(IDLE, e1, e2);
    Then(IDLE, e1 + e2, Install(first, 0));
    LastGoes(Names(t1.cache), last, first);
    es := e1 + e2 + [Install(first, 0)];
  }

  /** The use of a new name finds no directory of the oldest name in a full list. */
  lemma OldestHasNone(l: seq<string>, dirs: set<string>, first: string, last: string)
    requires |l| == KEEP_LRU && l[|l|-1] == first && last !in l && first !in dirs
    ensures Without(l, last) == l && ([last] + l)[|l|] == first
    ensures Touched(l, dirs, last, true).1 == dirs && Evicts(l, dirs, last, true)
  {
    NothingToRemove(l, last);
    assert ([last] + l)[|l|] == first;
  }

  /** A creation has looked for the directory of `first`, the oldest name, which still waits for its rename. */
  lemma MidUse(t: Tasks, first: string, last: string)
    requires UnderWay(t, [], first) && |Names(t.cache)| == KEEP_LRU && Plain(first) && Plain(last) && last !in Names(t.cache)
    requires Has(t, 0, Creation(first, Waiting)) && 0 < t.next && Staging(first) in t.cache.dirs
    ensures Legal(t, Begun(t, last, true)) && InTime(t, Begun(t, last, true))
    ensures var t' := ExecTasks(t, Begun(t, last, true));
            && Names(t'.cache) == Names(t.cache) && Enabled(t', Install(first, 0))
            && Leaving(t') == Some(first) && Without(Names(t.cache), last) == Names(t.cache)
            && t'.touching.value == Touching(last, Some(t.next), true)
  {
    StagingIsNotPlain(last);
    OldestHasNone(Names(t.cache), MadeReady(t, last).cache.dirs, first, last);
    BegunFacts(t, last, true);
  }

  /** A name that is deleted while its creation waits is installed, and forgotten. */
  lemma DeletedWhileWaiting(a: string) returns (es: seq<Event>)
    requires Plain(a)
    ensures Legal(IDLE, es) && InTime(IDLE, es) && Enabled(ExecTasks(IDLE, es), Install(a, 0))
    ensures var t := Step(ExecTasks(IDLE, es), Install(a, 0)); a in t.cache.dirs && a !in Names(t.cache)
  {
    var e1, t1 := Start(IDLE, a);
    OthersIsWithout(Names(t1.cache), a);
    WithoutFacts(Names(t1.cache), a);
    StagingIsNotPlain(a);
    Then(IDLE, e1, Remove(a, true));
    Then(IDLE, e1 + [Remove(a, true)], Forget(a, Written));
    es := e1 + [Remove(a, true)] + [Forget(a, Written)];
  }

  /**
    A deletion that looks for the directory before the rename, and changes the list after it: the
    rename was in time, and the directory is forgotten.
   */
  lemma DeletedWhileInstalled(a: string) returns (es: seq<Event>)
    requires Plain(a)
    ensures Legal(IDLE, es) && InTime(IDLE, es) && Enabled(ExecTasks(IDLE, es), Forget(a, Written))
    ensures var t := Step(ExecTasks(IDLE, es), Forget(a, Written)); a in t.cache.dirs && a !in Names(t.cache)
  {
    var e1, t1 := Start(IDLE, a);
    OthersIsWithout(Names(t1.cache), a);
    WithoutFacts(Names(t1.cache), a);
    StagingIsNotPlain(a);
    Then(IDLE, e1, Remove(a, true));
    Then(IDLE, e1 + [Remove(a, true)], Install(a, 0));
    es := e1 + [Remove(a, true)] + [Install(a, 0)];
  }

  /** Of two creations of one name the first installs what the second has only begun to make. */
  lemma UnfinishedIsInstalled(a: string) returns (es: seq<Event>)
    requires Plain(a)
    ensures Legal(IDLE, es) && Enabled(ExecTasks(IDLE, es), Install(a, 0))
    ensures var t := ExecTasks(IDLE, es); a in t.makers && t.makers[a] == 1 && 1 !in t.finished
  {
    var e1 := Started(IDLE, a, FINE);
    StartedFacts(IDLE, a, FINE);
    StagingIsNotPlain(a);
    TouchNew(Staged(IDLE.cache, a), a);
    Then(IDLE, e1, Stage(a));
    es := e1 + [Stage(a)];
  }
}

/**
  What the download cache keeps when operations fail, and the timestamp cache it refines when
  none does.
 */
module DownloadCacheProofs {
  import opened Wrappers
  import opened PersistedState
  import opened DownloadCache

  datatype Op = ExistsOp(name: string) | CreateOp(name: string) | DeleteOp(name: string)

  function Apply(c: Cache, op: Op, k: Luck): (Cache, bool) {
    match op
    case ExistsOp(n) => Exists(c, n, k)
    case CreateOp(n) => Create(c, n, k)
    case DeleteOp(n) => Delete(c, n, k)
  }

  /** Not the name of a staging directory. */
  predicate Plain(name: string) {
    |name| < |STAGING_SUFFIX| || name[|name| - |STAGING_SUFFIX|..] != STAGING_SUFFIX
  }

  lemma StagingIsNotPlain(name: string)
    ensures !Plain(Staging(name))
  {
    assert Staging(name)[|Staging(name)| - |STAGING_SUFFIX|..] == STAGING_SUFFIX;
  }

  predicate NoDuplicates(l: seq<string>) {
    forall i, j :: 0 <= i < j < |l| ==> l[i] != l[j]
  }

  // ------------------------------------------------------------------------
  // Lists.
  // ------------------------------------------------------------------------

  /** Removing the first occurrence from a list without duplicates removes the name. */
  lemma {:induction false} WithoutFacts(l: seq<string>, name: string)
    requires NoDuplicates(l)
    ensures NoDuplicates(Without(l, name)) && |Without(l, name)| == |l| - (if name in l then 1 else 0)
    ensures forall n :: n in Without(l, name) <==> n in l && n != name
  {
    if l != [] {
      assert l == [l[0]] + l[1..] && l[0] !in l[1..];
      if l[0] != name {
        var w := Without(l[1..], name);
        WithoutFacts(l[1..], name);
        assert l[0] !in w && Without(l, name) == [l[0]] + w;
      }
    }
  }

  lemma {:induction false} OthersIsWithout(l: seq<string>, name: string)
    requires NoDuplicates(l)
    ensures Others(l, name) == Without(l, name)
  {
    if l != [] {
      OthersIsWithout(l[1..], name);
      if l[0] == name {
        assert name !in l[1..];
        OthersKeepsAll(l[1..], name);
      }
    }
  }

  lemma {:induction false} OthersKeepsAll(l: seq<string>, name: string)
    requires name !in l
    ensures Others(l, name) == l
  {
    if l != [] {
      OthersKeepsAll(l[1..], name);
    }
  }

  // ------------------------------------------------------------------------
  // Under arbitrary failures.
  // ------------------------------------------------------------------------

  /** Every complete directory is listed; the list names each directory once. */
  ghost predicate Listed(l: seq<string>, dirs: set<string>) {
    && NoDuplicates(l)
    && (forall n | n in l :: Plain(n))
    && (forall n | n in dirs && Plain(n) :: n in l)
  }

  /** An eviction was due, but could not be done. */
  predicate EvictionFails(l: seq<string>, dirs: set<string>, name: string, removes: bool) {
    var used := [name] + Without(l, name);
    |used| > KEEP_LRU && used[|used|-1] in dirs && !removes
  }

  lemma AllButLast(used: seq<string>)
    requires used != [] && NoDuplicates(used)
    ensures var rest, oldest := used[..|used|-1], used[|used|-1];
            NoDuplicates(rest) && oldest !in rest && forall n :: n in used <==> n in rest || n == oldest
  {
    assert used == used[..|used|-1] + [used[|used|-1]];
  }

  lemma TouchedFacts(l: seq<string>, dirs: set<string>, name: string, removes: bool)
    requires Listed(l, dirs) && Plain(name)
    ensures var (l', dirs') := Touched(l, dirs, name, removes);
            && Listed(l', dirs') && l' != [] && l'[0] == name
            && |l'| <= (if |l| > KEEP_LRU then |l| else KEEP_LRU) + (if EvictionFails(l, dirs, name, removes) then 1 else 0)
            && dirs' <= dirs && (name in dirs ==> name in dirs')
            && (forall n | n in l && n !in l' :: n !in dirs')
  {
    WithoutFacts(l, name);
    var used := [name] + Without(l, name);
    assert forall n :: n in used <==> n in l || n == name;
    if |used| > KEEP_LRU {
      AllButLast(used);
    }
  }

  /** Removing failed evictions from the count, the list never exceeds its size. */
  ghost predicate Bounded(c: Cache, failures: nat) {
    |Names(c)| <= KEEP_LRU + failures
  }

  function FailedEvictions(c: Cache, op: Op, k: Luck): nat {
    match op
    case ExistsOp(n) => if n in c.dirs && EvictionFails(Names(c), c.dirs, n, k.removes) then 1 else 0
    case CreateOp(n) =>
      if n !in c.dirs && k.creates && EvictionFails(Names(c), c.dirs + {Staging(n)}, n, k.removes) then 1 else 0
    case DeleteOp(_) => 0
  }

  /** One operation, with any luck: directories stay listed, and names leave the list only after their directory. */
  lemma OpKeepsListed(c: Cache, op: Op, k: Luck)
    requires Listed(Names(c), c.dirs) && Plain(op.name)
    ensures var c' := Apply(c, op, k).0;
            && Listed(Names(c'), c'.dirs)
            && (forall n | n in Names(c) && n !in Names(c') :: n !in c'.dirs)
            && |Names(c')| <= (if |Names(c)| > KEEP_LRU then |Names(c)| else KEEP_LRU) + FailedEvictions(c, op, k)
  {
    var l := Names(c);
    StagingIsNotPlain(op.name);
    match op
    case ExistsOp(n) => TouchedFacts(l, c.dirs, n, k.removes);
    case CreateOp(n) => TouchedFacts(l, c.dirs + {Staging(n)}, n, k.removes);
    case DeleteOp(n) =>
      OthersIsWithout(l, n);
      WithoutFacts(l, n);
  }

  datatype Run = Run(op: Op, luck: Luck)

  function Exec(c: Cache, runs: seq<Run>): Cache
    decreases |runs|
  {
    if runs == [] then c else Exec(Apply(c, runs[0].op, runs[0].luck).0, runs[1..])
  }

  function Failures(c: Cache, runs: seq<Run>): nat
    decreases |runs|
  {
    if runs == [] then 0
    else FailedEvictions(c, runs[0].op, runs[0].luck) + Failures(Apply(c, runs[0].op, runs[0].luck).0, runs[1..])
  }

  predicate PlainRuns(runs: seq<Run>) {
    forall r | r in runs :: Plain(r.op.name)
  }

  lemma {:induction false} RunKeepsListed(c: Cache, runs: seq<Run>, failed: nat)
    requires Listed(Names(c), c.dirs) && PlainRuns(runs) && Bounded(c, failed)
    ensures var c' := Exec(c, runs);
            Listed(Names(c'), c'.dirs) && Bounded(c', failed + Failures(c, runs))
    decreases |runs|
  {
    if runs != [] {
      assert runs[0] in runs;
      OpKeepsListed(c, runs[0].op, runs[0].luck);
      RunKeepsListed(Apply(c, runs[0].op, runs[0].luck).0, runs[1..], failed + FailedEvictions(c, runs[0].op, runs[0].luck));
    }
  }

  const EMPTY := Cache(None, Missing, {})

  /**
    Whatever directory removals, renames and saves fail: in a process that started with an
    empty cache, every complete directory is in the list exactly once, and the list is longer
    than five only by evictions that failed.
   */
  lemma NothingForgotten(runs: seq<Run>)
    requires PlainRuns(runs)
    ensures var c := Exec(EMPTY, runs);
            && (forall n | n in c.dirs && Plain(n) :: n in Names(c)) && NoDuplicates(Names(c))
            && |Names(c)| <= KEEP_LRU + Failures(EMPTY, runs)
  {
    RunKeepsListed(EMPTY, runs, 0);
  }

  /**
    What the operations answer, whatever fails: a use, whether the directory was there, and it still
    is; a creation, whether the directory is there now, that is, was there or was made and one of 21
    attempts renamed it; a deletion, that it is not, nor in the list, unless a removal or a save failed.
   */
  lemma AnswersAreTrue(c: Cache, op: Op, k: Luck)
    requires Listed(Names(c), c.dirs) && Plain(op.name)
    ensures var (c', answer) := Apply(c, op, k);
            match op
            case ExistsOp(n) => (answer <==> n in c.dirs) && (answer <==> n in c'.dirs)
            case CreateOp(n) =>
              && (answer <==> n in c'.dirs)
              && (answer <==> n in c.dirs || (k.creates && exists i: nat :: i <= 20 && i < |k.renames| && k.renames[i]))
            case DeleteOp(n) =>
              && (answer ==> n !in c'.dirs && n !in Names(c'))
              && (!answer ==> (n in c.dirs && !k.removes) || !k.saves.Written?)
  {
    StagingIsNotPlain(op.name);
    match op
    case ExistsOp(n) => TouchedFacts(Names(c), c.dirs, n, k.removes);
    case CreateOp(n) => TouchedFacts(Names(c), c.dirs + {Staging(n)}, n, k.removes);
    case DeleteOp(n) =>
      OthersIsWithout(Names(c), n);
      WithoutFacts(Names(c), n);
  }

  /** As long as every save succeeds, the next process loads the list this one has. */
  lemma {:induction false} SavedListIsLoaded(c: Cache, runs: seq<Run>)
    requires Loaded(None, c.file, []) == Names(c)
    requires forall r | r in runs :: r.luck.saves.Written?
    ensures var c' := Exec(c, runs);
            Names(c'.(state := None)) == Names(c')
    decreases |runs|
  {
    if runs != [] {
      assert runs[0] in runs;
      SavedListIsLoaded(Apply(c, runs[0].op, runs[0].luck).0, runs[1..]);
    }
  }

  // ------------------------------------------------------------------------
  // Without failures: a timestamp cache.
  // ------------------------------------------------------------------------

  /** When each name was last used. */
  datatype Lru = Lru(stamps: map<string, nat>, clock: nat)

  ghost predicate IsOldest(m: map<string, nat>, n: string) {
    n in m && forall x | x in m :: m[n] <= m[x]
  }

  /** `b` is `a` after a use of `name`, which has the newest stamp and stays; beyond five names an oldest one goes. */
  ghost predicate Uses(a: Lru, name: string, b: Lru) {
    var m := a.stamps[name := a.clock];
    && b.clock == a.clock + 1 && name in b.stamps
    && if |m| <= KEEP_LRU then b.stamps == m
       else exists n :: IsOldest(m, n) && b.stamps == m - {n}
  }

  ghost predicate LruStep(a: Lru, op: Op, b: Lru, result: bool) {
    match op
    case ExistsOp(n) => result == (n in a.stamps) && if result then Uses(a, n, b) else b == a
    case CreateOp(n) => result && if n in a.stamps then b == a else Uses(a, n, b)
    case DeleteOp(n) => result && b == a.(stamps := a.stamps - {n})
  }

  ghost predicate Descending(l: seq<string>, m: map<string, nat>) {
    (forall i :: 0 <= i < |l| ==> l[i] in m) && forall i, j :: 0 <= i < j < |l| ==> m[l[i]] > m[l[j]]
  }

  /** A list of the stamped names, newest first. */
  ghost predicate ByUse(l: seq<string>, m: map<string, nat>) {
    (forall n :: n in l <==> n in m) && Descending(l, m)
  }

  /** The list holds the names by last use, newest first, and the directories are those names. */
  ghost predicate Refines(c: Cache, a: Lru) {
    && Listed(Names(c), c.dirs) && |Names(c)| <= KEEP_LRU
    && ByUse(Names(c), a.stamps)
    && (forall n | n in a.stamps :: n in c.dirs && a.stamps[n] < a.clock)
  }

  lemma {:induction false} SizeOfList(l: seq<string>, m: map<string, nat>)
    requires NoDuplicates(l) && forall n :: n in l <==> n in m
    ensures |m| == |l|
    decreases |l|
  {
    if l == [] {
      assert m == map[];
    } else {
      assert l[0] in l && l[0] !in l[1..];
      var m' := m - {l[0]};
      assert m.Keys == m'.Keys + {l[0]};
      SizeOfList(l[1..], m');
    }
  }

  /** What is left when one name is taken out: the list itself, or the parts before and after it. */
  lemma {:induction false} WithoutIs(l: seq<string>, name: string) returns (k: nat)
    ensures k <= |l|
    ensures Without(l, name) == if k == |l| then l else l[..k] + l[k + 1..]
  {
    if l == [] || l[0] == name {
      k := 0;
    } else {
      k := WithoutIs(l[1..], name);
      assert l == [l[0]] + l[1..];
      k := k + 1;
    }
  }

  lemma TakenOutDescends(l: seq<string>, k: nat, m: map<string, nat>)
    requires k < |l| && Descending(l, m)
    ensures Descending(l[..k] + l[k + 1..], m)
  {
    var w := l[..k] + l[k + 1..];
    forall i | 0 <= i < |w|
      ensures w[i] == if i < k then l[i] else l[i + 1]
    {
    }
  }

  /** Taking a name out keeps the order by last use. */
  lemma WithoutDescends(l: seq<string>, name: string, m: map<string, nat>)
    requires Descending(l, m)
    ensures Descending(Without(l, name), m)
  {
    var k := WithoutIs(l, name);
    if k < |l| {
      TakenOutDescends(l, k, m);
    }
  }

  lemma UsedIsSorted(l: seq<string>, name: string, a: Lru)
    requires NoDuplicates(l) && ByUse(l, a.stamps) && forall n | n in a.stamps :: a.stamps[n] < a.clock
    ensures var used, m := [name] + Without(l, name), a.stamps[name := a.clock];
            NoDuplicates(used) && ByUse(used, m) && |m| == |used|
  {
    var w, m := Without(l, name), a.stamps[name := a.clock];
    WithoutFacts(l, name);
    WithoutDescends(l, name, a.stamps);
    assert forall i :: 0 <= i < |w| ==> w[i] in w && m[w[i]] == a.stamps[w[i]];
    NewestFirst(w, name, m);
    assert forall n :: n in [name] + w <==> n == name || n in w;
    SizeOfList([name] + w, m);
  }

  lemma NewestFirst(w: seq<string>, name: string, m: map<string, nat>)
    requires NoDuplicates(w) && name !in w && name in m && Descending(w, m)
    requires forall i :: 0 <= i < |w| ==> w[i] in m && m[w[i]] < m[name]
    ensures NoDuplicates([name] + w) && Descending([name] + w, m)
  {
    var u := [name] + w;
    forall j | 0 < j < |u|
      ensures u[j] == w[j - 1] && u[j] in w
    {
    }
  }

  lemma LastIsLeast(u: seq<string>, m: map<string, nat>, i: nat)
    requires i < |u| && Descending(u, m)
    ensures m[u[|u|-1]] <= m[u[i]]
  {
  }

  lemma LastIsOldest(u: seq<string>, m: map<string, nat>)
    requires u != [] && NoDuplicates(u) && ByUse(u, m)
    ensures IsOldest(m, u[|u|-1]) && ByUse(u[..|u|-1], m - {u[|u|-1]})
  {
    var rest, oldest := u[..|u|-1], u[|u|-1];
    forall x | x in m
      ensures m[oldest] <= m[x]
    {
      var i :| 0 <= i < |u| && u[i] == x;
      LastIsLeast(u, m, i);
    }
    forall n
      ensures n in rest <==> n in m - {oldest}
    {
      assert u == rest + [oldest];
    }
  }

  /** The list after a use whose eviction works, and the directories that stay. */
  lemma TouchIs(c: Cache, name: string, k: Luck)
    requires NothingFails(k)
    ensures var t, used := Touch(c, name, k), [name] + Without(Names(c), name);
            Names(t) == (if |used| <= KEEP_LRU then used else used[..|used|-1]) &&
            t.dirs == if |used| <= KEEP_LRU then c.dirs else c.dirs - {used[|used|-1]}
  {
  }

  lemma UsedStamps(c: Cache, name: string, a: Lru, k: Luck) returns (b: Lru)
    requires NothingFails(k) && NoDuplicates(Names(c)) && ByUse(Names(c), a.stamps)
    requires forall n | n in a.stamps :: n in c.dirs && a.stamps[n] < a.clock
    ensures Uses(a, name, b) && ByUse(Names(Touch(c, name, k)), b.stamps)
    ensures forall n | n in b.stamps :: b.stamps[n] < b.clock && (n == name || n in Touch(c, name, k).dirs)
  {
    var used, m := [name] + Without(Names(c), name), a.stamps[name := a.clock];
    TouchIs(c, name, k);
    UsedIsSorted(Names(c), name, a);
    if |used| <= KEEP_LRU {
      b := Lru(m, a.clock + 1);
    } else {
      LastIsOldest(used, m);
      LastIsNotFirst(used);
      b := Lru(m - {used[|used|-1]}, a.clock + 1);
    }
  }

  lemma LastIsNotFirst(used: seq<string>)
    requires |used| > 1 && NoDuplicates(used)
    ensures used[|used|-1] != used[0]
  {
  }

  lemma TouchListed(c: Cache, name: string, k: Luck)
    requires Listed(Names(c), c.dirs) && Plain(name) && NothingFails(k) && |Names(c)| <= KEEP_LRU
    ensures var t := Touch(c, name, k);
            Listed(Names(t), t.dirs) && |Names(t)| <= KEEP_LRU && Names(t) != [] && Names(t)[0] == name
  {
    TouchedFacts(Names(c), c.dirs, name, true);
    assert Names(Touch(c, name, k)) == Touched(Names(c), c.dirs, name, true).0;
  }

  lemma RefinesWith(t: Cache, name: string, b: Lru)
    requires Listed(Names(t), t.dirs) && |Names(t)| <= KEEP_LRU && Names(t) != [] && Names(t)[0] == name
    requires ByUse(Names(t), b.stamps)
    requires forall n | n in b.stamps :: b.stamps[n] < b.clock && (n == name || n in t.dirs)
    ensures Refines(t.(dirs := t.dirs + {name}), b)
  {
    assert name in Names(t);
  }

  /** A use moves a name to the front, and drops the last name if there are too many. */
  lemma UseRefines(c: Cache, a: Lru, name: string, dirs: set<string>, k: Luck) returns (b: Lru)
    requires Refines(c, a) && Plain(name) && NothingFails(k)
    requires c.dirs <= dirs && forall n | n in dirs && n !in c.dirs :: !Plain(n)
    ensures Uses(a, name, b)
    ensures var t := Touch(c.(dirs := dirs), name, k);
            Refines(t.(dirs := t.dirs + {name}), b)
  {
    b := UsedStamps(c.(dirs := dirs), name, a, k);
    TouchListed(c.(dirs := dirs), name, k);
    RefinesWith(Touch(c.(dirs := dirs), name, k), name, b);
  }

  lemma TouchKeepsName(c: Cache, n: string, k: Luck)
    requires Listed(Names(c), c.dirs) && Plain(n) && NothingFails(k) && n in c.dirs
    ensures var t := Touch(c, n, k); t.(dirs := t.dirs + {n}) == t
    ensures c.(dirs := c.dirs) == c
  {
    TouchedFacts(Names(c), c.dirs, n, true);
    assert n in Touch(c, n, k).dirs;
  }

  lemma ExistsRefines(c: Cache, a: Lru, n: string, k: Luck) returns (b: Lru)
    requires Refines(c, a) && Plain(n) && NothingFails(k)
    ensures LruStep(a, ExistsOp(n), b, Exists(c, n, k).1) && Refines(Exists(c, n, k).0, b)
  {
    b := a;
    if n in c.dirs {
      b := UseRefines(c, a, n, c.dirs, k);
      TouchKeepsName(c, n, k);
    }
  }

  /** A creation that goes well uses the name, with its staging directory beside it for a while. */
  lemma CreateIs(c: Cache, n: string, k: Luck)
    requires NothingFails(k) && n !in c.dirs && Staging(n) != n
    ensures var t := Touch(c.(dirs := c.dirs + {Staging(n)}), n, k);
            Create(c, n, k) == (t.(dirs := t.dirs + {n} - {Staging(n)}), true)
  {
    var t := Touch(c.(dirs := c.dirs + {Staging(n)}), n, k);
    assert t.dirs + {n} - {Staging(n)} == t.dirs - {Staging(n)} + {n};
  }

  lemma CreateRefines(c: Cache, a: Lru, n: string, k: Luck) returns (b: Lru)
    requires Refines(c, a) && Plain(n) && NothingFails(k)
    ensures LruStep(a, CreateOp(n), b, Create(c, n, k).1) && Refines(Create(c, n, k).0, b)
  {
    b := a;
    StagingIsNotPlain(n);
    if n !in c.dirs {
      b := UseRefines(c, a, n, c.dirs + {Staging(n)}, k);
      var t := Touch(c.(dirs := c.dirs + {Staging(n)}), n, k);
      StagingDoesNotMatter(t.(dirs := t.dirs + {n}), b, Staging(n));
      CreateIs(c, n, k);
    }
  }

  lemma DeleteRefines(c: Cache, a: Lru, n: string, k: Luck) returns (b: Lru)
    requires Refines(c, a) && Plain(n) && NothingFails(k)
    ensures LruStep(a, DeleteOp(n), b, Delete(c, n, k).1) && Refines(Delete(c, n, k).0, b)
  {
    b := a.(stamps := a.stamps - {n});
    OthersIsWithout(Names(c), n);
    WithoutFacts(Names(c), n);
    WithoutDescends(Names(c), n, a.stamps);
  }

  /** Without failures, each operation does what the timestamp cache does, and answers the same. */
  lemma OpRefines(c: Cache, a: Lru, op: Op, k: Luck) returns (b: Lru)
    requires Refines(c, a) && Plain(op.name) && NothingFails(k)
    ensures LruStep(a, op, b, Apply(c, op, k).1) && Refines(Apply(c, op, k).0, b)
  {
    match op
    case ExistsOp(n) => b := ExistsRefines(c, a, n, k);
    case CreateOp(n) => b := CreateRefines(c, a, n, k);
    case DeleteOp(n) => b := DeleteRefines(c, a, n, k);
  }

  lemma StagingDoesNotMatter(c: Cache, a: Lru, s: string)
    requires Refines(c, a) && !Plain(s)
    ensures Refines(c.(dirs := c.dirs - {s}), a)
  {
  }

  /** A run of the timestamp cache, with the answers it gives. */
  ghost predicate LruRun(a: Lru, ops: seq<Op>, states: seq<Lru>, answers: seq<bool>) {
    && |states| == |ops| + 1 && |answers| == |ops| && states[0] == a
    && forall i :: 0 <= i < |ops| ==> LruStep(states[i], ops[i], states[i + 1], answers[i])
  }

  function Answers(c: Cache, ops: seq<Op>, k: Luck): seq<bool>
    decreases |ops|
  {
    if ops == [] then [] else [Apply(c, ops[0], k).1] + Answers(Apply(c, ops[0], k).0, ops[1..], k)
  }

  function Repeat(ops: seq<Op>, k: Luck): (runs: seq<Run>)
    ensures |runs| == |ops| && forall i :: 0 <= i < |ops| ==> runs[i] == Run(ops[i], k)
  {
    seq(|ops|, i requires 0 <= i < |ops| => Run(ops[i], k))
  }

  lemma ExecRepeat(c: Cache, ops: seq<Op>, k: Luck)
    requires ops != []
    ensures Exec(c, Repeat(ops, k)) == Exec(Apply(c, ops[0], k).0, Repeat(ops[1..], k))
  {
    assert Repeat(ops, k)[1..] == Repeat(ops[1..], k);
  }

  lemma {:induction false} RunRefines(c: Cache, a: Lru, ops: seq<Op>, k: Luck) returns (states: seq<Lru>)
    requires Refines(c, a) && NothingFails(k) && forall op | op in ops :: Plain(op.name)
    ensures LruRun(a, ops, states, Answers(c, ops, k)) && Refines(Exec(c, Repeat(ops, k)), states[|ops|])
    decreases |ops|
  {
    if ops == [] {
      states := [a];
    } else {
      assert ops[0] in ops;
      var b := OpRefines(c, a, ops[0], k);
      var rest := RunRefines(Apply(c, ops[0], k).0, b, ops[1..], k);
      states := [a] + rest;
      ExecRepeat(c, ops, k);
      ConsRun(a, ops, b, rest, Apply(c, ops[0], k).1, Answers(Apply(c, ops[0], k).0, ops[1..], k));
    }
  }

  lemma ConsRun(a: Lru, ops: seq<Op>, b: Lru, states: seq<Lru>, answer: bool, answers: seq<bool>)
    requires ops != [] && LruStep(a, ops[0], b, answer) && LruRun(b, ops[1..], states, answers)
    ensures LruRun(a, ops, [a] + states, [answer] + answers)
    ensures ([a] + states)[|ops|] == states[|ops[1..]|]
  {
    var s, r := [a] + states, [answer] + answers;
    forall i | 0 <= i < |ops|
      ensures LruStep(s[i], ops[i], s[i + 1], r[i])
    {
      if i > 0 {
        assert LruStep(states[i - 1], ops[1..][i - 1], states[i], answers[i - 1]);
      }
    }
  }

  /**
    Without failures, any run of the download cache from empty is a run of a cache of five
    entries that evicts the entry whose last use is longest ago, with the same answers.
   */
  lemma RefinesTimestampCache(ops: seq<Op>, k: Luck) returns (states: seq<Lru>)
    requires NothingFails(k) && forall op | op in ops :: Plain(op.name)
    ensures LruRun(Lru(map[], 0), ops, states, Answers(EMPTY, ops, k))
    ensures Refines(Exec(EMPTY, Repeat(ops, k)), states[|ops|])
  {
    states := RunRefines(EMPTY, Lru(map[], 0), ops, k);
  }
}

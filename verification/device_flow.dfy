/**
  Waiting for a login and keeping it alive: the polling loop of `do_device_code_flow_with_scopes`
  and `keep_token_alive` in cli/src/auth.rs. Times are in nanoseconds.
 */
module DeviceFlow {
  import opened Wrappers

  const SECOND := 1_000_000_000

  // ------------------------------------------------------------------------
  // Polling for a grant.
  // ------------------------------------------------------------------------

  datatype Answer = Granted | OAuthError(error: string) | StatusError(code: nat) | OtherError

  /** One poll: its answer, and the time that passed beside the interval slept. */
  datatype Poll = Poll(answer: Answer, extra: nat)

  predicate SlowsDown(a: Answer) {
    (a.OAuthError? && a.error == "slow_down") || (a.StatusError? && a.code == 429)
  }

  /** How many of the first `n` polls were told to slow down. */
  function SlowDowns(polls: nat -> Poll, n: nat): (k: nat)
    ensures k <= n
  {
    if n == 0 then 0 else SlowDowns(polls, n - 1) + if SlowsDown(polls(n - 1).answer) then 1 else 0
  }

  /** The interval before poll `n`, counted from 0, as in section 3.5 of RFC 8628. */
  function IntervalAt(polls: nat -> Poll, n: nat): nat {
    5 + 5 * SlowDowns(polls, n)
  }

  /** The time from getting the code until the answer of the n-th poll is in. */
  function Elapsed(polls: nat -> Poll, n: nat): nat {
    if n == 0 then 0 else Elapsed(polls, n - 1) + IntervalAt(polls, n - 1) * SECOND + polls(n - 1).extra
  }

  /** The first `n` polls are all made: none before the last was granted, and the code was still good. */
  ghost predicate Makes(polls: nat -> Poll, lifetime: int, n: nat) {
    forall k :: 0 <= k < n ==> Elapsed(polls, k) < lifetime && (k > 0 ==> !polls(k - 1).answer.Granted?)
  }

  lemma MakesNext(polls: nat -> Poll, lifetime: int, n: nat)
    requires Makes(polls, lifetime, n) && Elapsed(polls, n) < lifetime
    requires n > 0 ==> !polls(n - 1).answer.Granted?
    ensures Makes(polls, lifetime, n + 1)
  {
  }

  /** The polling of one device code; it always comes to an end. */
  method PollForGrant(expires_in: int, polls: nat -> Poll) returns (granted: bool, made: nat, interval_s: nat)
    ensures Makes(polls, expires_in * SECOND, made)
    ensures granted <==> made > 0 && polls(made - 1).answer.Granted?
    ensures !granted ==> Elapsed(polls, made) >= expires_in * SECOND
    ensures interval_s == IntervalAt(polls, made)
  {
    var now, expires_at := 0, expires_in * SECOND;
    made, interval_s := 0, 5;
    while now < expires_at
      invariant now == Elapsed(polls, made) && interval_s == IntervalAt(polls, made)
      invariant Makes(polls, expires_at, made)
      invariant made > 0 ==> !polls(made - 1).answer.Granted?
      decreases expires_at - now
    {
      var poll := polls(made);
      MakesNext(polls, expires_at, made);
      now := now + interval_s * SECOND + poll.extra;
      made := made + 1;
      match poll.answer {
        case Granted =>
          return true, made, interval_s;
        case OAuthError(error) =>
          if error == "slow_down" {
            interval_s := interval_s + 5;
          }
        case StatusError(code) =>
          if code == 429 {
            interval_s := interval_s + 5;
          }
        case OtherError =>
      }
    }
    return false, made, interval_s;
  }

  /** Twice the sum of the numbers below `n`. */
  function Twice(n: nat): nat {
    if n == 0 then 0 else Twice(n - 1) + 2 * (n - 1)
  }

  lemma {:induction false} TwiceIs(n: nat)
    ensures Twice(n) == n * (n - 1)
  {
    if n > 0 {
      TwiceIs(n - 1);
    }
  }

  /** The waiting that slow-downs force: k of them among n polls take at least 5·n + 5·k(k-1)/2 seconds. */
  lemma {:induction false} WaitsAtLeast(polls: nat -> Poll, n: nat)
    ensures 2 * Elapsed(polls, n) >= 5 * SECOND * (2 * n + Twice(SlowDowns(polls, n)))
    decreases n
  {
    if n > 0 {
      WaitsAtLeast(polls, n - 1);
    }
  }

  /** Making a poll after k slow-downs needs a code that lives long enough for all the waiting before it. */
  lemma SlowDownsNeedLifetime(polls: nat -> Poll, lifetime: int, n: nat)
    requires n > 0 && Makes(polls, lifetime, n)
    ensures var k := SlowDowns(polls, n - 1);
            5 * SECOND * (2 * (n - 1) + k * (k - 1)) < 2 * lifetime &&
            (k == n - 1 ==> 5 * SECOND * (n * (n - 1)) < 2 * lifetime)
  {
    WaitsAtLeast(polls, n - 1);
    assert Elapsed(polls, n - 1) < lifetime;
    TwiceIs(SlowDowns(polls, n - 1));
    TwiceIs(n);
  }

  lemma {:induction false} PromptElapsed(polls: nat -> Poll, n: nat)
    requires forall k :: 0 <= k < n ==> SlowsDown(polls(k).answer) && polls(k).extra == 0
    ensures SlowDowns(polls, n) == n && 2 * Elapsed(polls, n) == 5 * SECOND * Twice(n + 1)
    decreases n
  {
    if n > 0 {
      PromptElapsed(polls, n - 1);
    }
  }

  /** Slowed down every time, and with no delay of its own, the loop makes exactly the polls that fit. */
  lemma AllSlowIff(polls: nat -> Poll, lifetime: int, n: nat)
    requires n > 0 && forall k :: 0 <= k < n ==> SlowsDown(polls(k).answer) && polls(k).extra == 0
    ensures Makes(polls, lifetime, n) <==> 5 * SECOND * (n * (n - 1)) < 2 * lifetime
  {
    PromptElapsed(polls, n - 1);
    TwiceIs(n);
    assert Elapsed(polls, n - 1) < lifetime <==> 5 * SECOND * (n * (n - 1)) < 2 * lifetime;
    forall k | 0 <= k < n
      ensures Elapsed(polls, k) <= Elapsed(polls, n - 1)
    {
      ElapsedGrows(polls, k, n - 1);
    }
  }

  lemma {:induction false} ElapsedGrows(polls: nat -> Poll, k: nat, n: nat)
    requires k <= n
    ensures Elapsed(polls, k) <= Elapsed(polls, n)
    decreases n
  {
    if k < n {
      ElapsedGrows(polls, k, n - 1);
    }
  }

  /** Which answers slow the polling down, for good, and by how much: five seconds each, from five on. */
  lemma IntervalGrows(polls: nat -> Poll, n: nat)
    ensures IntervalAt(polls, 0) == 5
    ensures IntervalAt(polls, n + 1) - IntervalAt(polls, n) ==
            if polls(n).answer == OAuthError("slow_down") || polls(n).answer == StatusError(429) then 5 else 0
    ensures Elapsed(polls, 0) == 0
    ensures Elapsed(polls, n + 1) == Elapsed(polls, n) + IntervalAt(polls, n) * SECOND + polls(n).extra
  {
  }

  // ------------------------------------------------------------------------
  // Keeping a token alive.
  // ------------------------------------------------------------------------

  const DEFAULT_REFRESH := 60 * 60 * SECOND
  const MIN_REFRESH := 10 * SECOND

  /** A credential: its text, and when it expires, if that is known. */
  datatype Credential = Credential(text: string, expires_at: Option<int>)

  datatype Reply = Unchanged | Renewed(credential: Credential) | Status(code: nat) | NotAvailable | Error

  /** One turn: how much longer than asked it slept, what the refresh gave, and how long that took. */
  datatype Turn = Turn(late: nat, reply: Reply, took: nat)

  datatype Ending = GivenUp(code: nat) | NoRefreshToken | Running

  /** Division and remainder of integers that round towards zero. */
  function TruncDiv(a: int, b: int): int
    requires b > 0
  {
    if a >= 0 then a / b else -((-a) / b)
  }

  function TruncRem(a: int, b: int): int
    requires b > 0
  {
    a - TruncDiv(a, b) * b
  }

  function SleepFor(expires_at: Option<int>, now: int, last_did_error: bool): int {
    if last_did_error then MIN_REFRESH
    else if expires_at.None? then DEFAULT_REFRESH
    else
      var scaled := TruncDiv((expires_at.value - now) * 2, 3);
      if scaled < MIN_REFRESH then MIN_REFRESH else scaled
  }

  lemma WholeAndRest(nanos: int)
    ensures TruncDiv(nanos, SECOND) * SECOND + TruncRem(nanos, SECOND) == nanos
    ensures TruncDiv(nanos, SECOND) < 0 || TruncRem(nanos, SECOND) < 0 <==> nanos < 0
    ensures -SECOND < TruncRem(nanos, SECOND) < SECOND
  {
  }

  method SleepTime(credential: Credential, now: int, last_did_error: bool) returns (sleep_time: int)
    ensures sleep_time == SleepFor(credential.expires_at, now, last_did_error)
  {
    if last_did_error {
      sleep_time := MIN_REFRESH;
    } else {
      match credential.expires_at {
        case Some(d) =>
          var nanos := TruncDiv((d - now) * 2, 3);
          var secs, rest := TruncDiv(nanos, SECOND), TruncRem(nanos, SECOND);
          WholeAndRest(nanos);
          if secs < 0 || rest < 0 {
            sleep_time := MIN_REFRESH;
          } else {
            sleep_time := secs * SECOND + rest;
          }
        case None =>
          sleep_time := DEFAULT_REFRESH;
      }
    }
    if sleep_time < MIN_REFRESH {
      sleep_time := MIN_REFRESH;
    }
  }

  /** Never less than ten seconds; and it wakes before a known expiry exactly when more than those are left. */
  lemma WakesInTimeIff(expires_at: Option<int>, now: int, last_did_error: bool)
    ensures SleepFor(expires_at, now, last_did_error) >= MIN_REFRESH
    ensures expires_at.Some? ==>
              (now + SleepFor(expires_at, now, last_did_error) < expires_at.value <==> expires_at.value - now > MIN_REFRESH)
  {
    if expires_at.Some? {
      TwoThirds(expires_at.value - now);
    }
  }

  lemma TwoThirds(left: int)
    ensures left > 0 ==> TruncDiv(left * 2, 3) < left && 3 * TruncDiv(left * 2, 3) <= 2 * left
    ensures left <= 0 ==> TruncDiv(left * 2, 3) <= 0
  {
  }

  /** From fifteen seconds on, a third of the remaining life is still ahead when the refresh starts. */
  lemma ThirdIsLeft(d: int, now: int)
    requires 2 * (d - now) >= 3 * MIN_REFRESH
    ensures 3 * (d - (now + SleepFor(Some(d), now, false))) >= d - now
  {
    TwoThirds(d - now);
  }

  /** Where the loop is: the time, the credential it refreshes, what it stored, and whether it failed last. */
  datatype Keeper = Keeper(now: int, credential: Credential, stored: seq<Credential>, last_did_error: bool)

  predicate Ends(reply: Reply) {
    reply.NotAvailable? || (reply.Status? && 400 <= reply.code < 500)
  }

  function Woken(k: Keeper, late: nat): int {
    k.now + SleepFor(k.credential.expires_at, k.now, k.last_did_error) + late
  }

  function NextTurn(k: Keeper, t: Turn): Keeper {
    var after := k.(now := Woken(k, t.late) + t.took);
    match t.reply
    case Unchanged => after.(last_did_error := false)
    case Renewed(c) => after.(last_did_error := false, credential := c, stored := k.stored + [c])
    case _ => if Ends(t.reply) then after else after.(last_did_error := true)
  }

  /** The turns up to the first that ends the loop. */
  function Turns(k: Keeper, turns: seq<Turn>): Keeper
    decreases |turns|
  {
    if turns == [] then k
    else if Ends(turns[0].reply) then NextTurn(k, turns[0])
    else Turns(NextTurn(k, turns[0]), turns[1..])
  }

  function EndingOf(turns: seq<Turn>): Ending {
    if turns == [] then Running
    else if !Ends(turns[0].reply) then EndingOf(turns[1..])
    else if turns[0].reply.Status? then GivenUp(turns[0].reply.code) else NoRefreshToken
  }

  /** The loop over the turns that have come about so far. */
  method KeepTokenAlive(start: int, first: Credential, turns: seq<Turn>) returns (ending: Ending, end: Keeper)
    ensures end == Turns(Keeper(start, first, [], false), turns) && ending == EndingOf(turns)
  {
    var now, credential, stored: seq<Credential>, last_did_error := start, first, [], false;
    for i := 0 to |turns|
      invariant Turns(Keeper(now, credential, stored, last_did_error), turns[i..]) ==
                Turns(Keeper(start, first, [], false), turns)
      invariant EndingOf(turns[i..]) == EndingOf(turns)
    {
      assert turns[i..][1..] == turns[i + 1..];
      var t := turns[i];
      var sleep_time := SleepTime(credential, now, last_did_error);
      now := now + sleep_time + t.late + t.took;
      match t.reply {
        case Status(code) =>
          if 400 <= code < 500 {
            return GivenUp(code), Keeper(now, credential, stored, last_did_error);
          }
          last_did_error := true;
        case NotAvailable =>
          return NoRefreshToken, Keeper(now, credential, stored, last_did_error);
        case Error =>
          last_did_error := true;
        case Unchanged =>
          last_did_error := false;
        case Renewed(c) =>
          last_did_error := false;
          stored := stored + [c];
          credential := c;
      }
    }
    assert turns[|turns|..] == [];
    return Running, Keeper(now, credential, stored, last_did_error);
  }

  /** A refresh that failed, but for a reason that may go away. */
  predicate Fails(reply: Reply) {
    reply.Error? || (reply.Status? && !(400 <= reply.code <= 499))
  }

  /** After such a failure the next refresh begins ten seconds later, with the same credential. */
  lemma RetriedAfterTen(k: Keeper, t: Turn, late: nat)
    requires Fails(t.reply)
    ensures var next := NextTurn(k, t);
            && Woken(next, late) == next.now + 10 * SECOND + late
            && next.credential == k.credential && next.stored == k.stored && EndingOf([t]).Running?
  {
    assert [t][1..] == [];
  }

  /** After a success it begins when two thirds of the credential's life are over, or after an hour if that is not known. */
  lemma RefreshedInTime(k: Keeper, t: Turn, late: nat)
    requires t.reply.Unchanged? || t.reply.Renewed?
    ensures var next := NextTurn(k, t);
            var slept := Woken(next, late) - late - next.now;
            && next.credential == (if t.reply.Renewed? then t.reply.credential else k.credential)
            && next.stored == (if t.reply.Renewed? then k.stored + [t.reply.credential] else k.stored)
            && (next.credential.expires_at.None? ==> slept == 3600 * SECOND)
            && (next.credential.expires_at.Some? ==>
                  var left := next.credential.expires_at.value - next.now;
                  if left < 15 * SECOND then slept == 10 * SECOND else 3 * slept <= 2 * left < 3 * slept + 3)
  {
    var next := NextTurn(k, t);
    if next.credential.expires_at.Some? {
      var left := next.credential.expires_at.value - next.now;
      if left < 0 {
        assert TruncDiv(left * 2, 3) <= 0;
      }
    }
  }

  /** The refresh that ends the loop is the first that is refused with a 4xx status or for want of a refresh token. */
  lemma {:induction false} EndsIff(turns: seq<Turn>, i: nat)
    requires forall j :: 0 <= j < i && j < |turns| ==> Fails(turns[j].reply) || turns[j].reply.Unchanged? || turns[j].reply.Renewed?
    ensures i >= |turns| ==> EndingOf(turns) == Running
    ensures i < |turns| ==>
              && (forall code :: turns[i].reply == Status(code) && 400 <= code <= 499 ==> EndingOf(turns) == GivenUp(code))
              && (turns[i].reply == NotAvailable ==> EndingOf(turns) == NoRefreshToken)
    decreases i
  {
    if turns != [] && i > 0 {
      EndsIff(turns[1..], i - 1);
    }
  }

  /** Nothing that comes after the ending counts. */
  lemma {:induction false} EndedThere(k: Keeper, turns: seq<Turn>, i: nat)
    requires i < |turns| && (forall j :: 0 <= j < i ==> Fails(turns[j].reply) || turns[j].reply.Unchanged? || turns[j].reply.Renewed?)
    requires turns[i].reply.NotAvailable? || (turns[i].reply.Status? && 400 <= turns[i].reply.code <= 499)
    ensures Turns(k, turns) == Turns(k, turns[..i + 1])
    decreases i
  {
    assert turns[..i + 1][0] == turns[0];
    if i > 0 {
      EndedThere(NextTurn(k, turns[0]), turns[1..], i - 1);
      assert turns[..i + 1][1..] == turns[1..][..i];
    }
  }

  predicate KeeperOk(k: Keeper, first: Credential) {
    k.credential == if k.stored == [] then first else k.stored[|k.stored|-1]
  }

  /** In every run: what is refreshed is what was stored last, and no refresh follows another within ten seconds. */
  lemma {:induction false} RunKeepsCredential(k: Keeper, first: Credential, turns: seq<Turn>)
    requires KeeperOk(k, first)
    ensures KeeperOk(Turns(k, turns), first) && k.stored <= Turns(k, turns).stored
    ensures EndingOf(turns).Running? ==> Turns(k, turns).now >= k.now + |turns| * MIN_REFRESH
    decreases |turns|
  {
    if turns != [] {
      TurnKeepsCredential(k, first, turns[0]);
      if !Ends(turns[0].reply) {
        RunKeepsCredential(NextTurn(k, turns[0]), first, turns[1..]);
      }
    }
  }

  lemma TurnKeepsCredential(k: Keeper, first: Credential, t: Turn)
    requires KeeperOk(k, first)
    ensures KeeperOk(NextTurn(k, t), first) && k.stored <= NextTurn(k, t).stored
    ensures NextTurn(k, t).now >= k.now + MIN_REFRESH
  {
    WakesInTimeIff(k.credential.expires_at, k.now, k.last_did_error);
  }
}

/** The lock-out after repeated wrong codes (apps/api/src/auth/totp-throttle.ts). */
module Throttle {
  import opened Wrappers

  const WINDOW_MS := 15 * 60 * 1000
  const MAX_FAILURES := 5

  datatype Bucket = Bucket(count: nat, resetAt: nat)

  datatype Answer = Answer(locked: bool, retryAfterSec: nat)

  function CeilSeconds(ms: nat): nat {
    (ms + 999) / 1000
  }

  /** The bucket a failure at `now` falls into. */
  function Current(b: Option<Bucket>, now: nat): Bucket {
    if b.Some? && b.value.resetAt > now then b.value else Bucket(0, now + WINDOW_MS)
  }

  predicate Locks(b: Option<Bucket>, now: nat) {
    Current(b, now).count >= MAX_FAILURES
  }

  /** A user's bucket after a failure. */
  function Next(b: Option<Bucket>, now: nat): Option<Bucket> {
    var bucket := Current(b, now);
    if bucket.count >= MAX_FAILURES then b else Some(bucket.(count := bucket.count + 1))
  }

  class Failures {
    var failures: map<string, Bucket>

    function Of(user: string): Option<Bucket>
      reads this
    {
      if user in failures then Some(failures[user]) else None
    }

    /** Counts are at most five, and no bucket ends later than a window after `now`. */
    ghost predicate Valid(now: nat)
      reads this
    {
      forall user <- failures :: 1 <= failures[user].count <= MAX_FAILURES && failures[user].resetAt <= now + WINDOW_MS
    }

    constructor ()
      ensures failures == map[]
    {
      failures := map[];
    }

    /** `recordTotpFailure`. `Valid` holds as long as the clock does not go back. */
    method RecordTotpFailure(user: string, now: nat) returns (answer: Answer)
      modifies this
      ensures old(Valid(now)) ==> Valid(now) && answer.retryAfterSec <= 900
      ensures Of(user) == Next(old(Of(user)), now)
      ensures forall other | other != user :: Of(other) == old(Of(other))
      ensures answer.locked == Locks(old(Of(user)), now)
      // A running bucket counts up to five and keeps its end; then it locks. Any other failure opens a new one.
      ensures var before := old(Of(user));
              if before.Some? && before.value.resetAt > now then
                if before.value.count >= 5 then answer.locked && Of(user) == before
                else !answer.locked && Of(user) == Some(Bucket(before.value.count + 1, before.value.resetAt))
              else
                !answer.locked && Of(user) == Some(Bucket(1, now + 900_000))
      // The waiting time is that to the end of the bucket, rounded up to whole seconds.
      ensures Of(user).Some? && answer.retryAfterSec >= 1
      ensures 1000 * (answer.retryAfterSec - 1) < Of(user).value.resetAt - now <= 1000 * answer.retryAfterSec
    {
      var bucket := Bucket(0, now + WINDOW_MS);
      if user in failures && failures[user].resetAt > now {
        bucket := failures[user];
      }
      if bucket.count >= MAX_FAILURES {
        return Answer(true, CeilSeconds(bucket.resetAt - now));
      }
      bucket := bucket.(count := bucket.count + 1);
      failures := failures[user := bucket];
      return Answer(false, CeilSeconds(bucket.resetAt - now));
    }

    /** `resetTotpFailures` */
    method ResetTotpFailures(user: string)
      modifies this
      ensures Of(user) == None
      ensures forall other | other != user :: Of(other) == old(Of(other))
    {
      failures := failures - {user};
    }
  }

  // ----- Runs of failures of one user ---------------------------------------------------------------

  predicate Ordered(times: seq<nat>) {
    forall i, j | 0 <= i < j < |times| :: times[i] <= times[j]
  }

  /** The bucket after failures at the given times. */
  function After(times: seq<nat>): Option<Bucket> {
    if times == [] then None else Next(After(times[..|times| - 1]), times[|times| - 1])
  }

  /** How many failures between `from` and a window later were answered without a lock. */
  function Unlocked(times: seq<nat>, from: nat): nat {
    if times == [] then 0 else
    var before, now := times[..|times| - 1], times[|times| - 1];
    Unlocked(before, from) + CountedAt(After(before), now, from)
  }

  /** The count `n` up to time `last` is bounded by where the current bucket was opened. */
  predicate Bounded(b: Option<Bucket>, n: nat, from: nat, last: nat) {
    match b
    case None => n == 0
    case Some(bucket) =>
      var openedAt: int := bucket.resetAt - WINDOW_MS;
      && 1 <= bucket.count <= MAX_FAILURES
      && 0 <= openedAt <= last
      && (last < from ==> n == 0)
      && (openedAt < from ==> n <= bucket.count - 1)
      && (from <= openedAt < from + WINDOW_MS ==> n <= 4 + bucket.count)
      && n <= 9
  }

  function CountedAt(b: Option<Bucket>, now: nat, from: nat): nat {
    if from <= now < from + WINDOW_MS && !Locks(b, now) then 1 else 0
  }

  lemma StepIsBounded(b: Option<Bucket>, n: nat, from: nat, last: nat, now: nat)
    requires Bounded(b, n, from, last) && last <= now
    ensures Bounded(Next(b, now), n + CountedAt(b, now, from), from, now)
  {
  }

  lemma {:induction false} RunIsBounded(times: seq<nat>, from: nat)
    requires Ordered(times)
    ensures Bounded(After(times), Unlocked(times, from), from, if times == [] then 0 else times[|times| - 1])
  {
    if times != [] {
      var before, now := times[..|times| - 1], times[|times| - 1];
      RunIsBounded(before, from);
      StepIsBounded(After(before), Unlocked(before, from), from, if before == [] then 0 else before[|before| - 1], now);
    }
  }

  /**
   In any half-open interval of fifteen minutes a user gets at most nine answers without a lock: four
   left over from a bucket opened earlier, and a full bucket of five.
   */
  lemma AtMostNineInAnyWindow(times: seq<nat>, from: nat)
    requires Ordered(times)
    ensures Unlocked(times, from) <= 9
  {
    RunIsBounded(times, from);
  }

  lemma Push(times: seq<nat>, now: nat, from: nat)
    ensures After(times + [now]) == Next(After(times), now)
    ensures Unlocked(times + [now], from) == Unlocked(times, from) + CountedAt(After(times), now, from)
  {
    assert (times + [now])[..|times|] == times;
  }

  /** A failure in an open bucket that is not full. */
  lemma PushInto(times: seq<nat>, now: nat, from: nat, b: Bucket)
    requires After(times) == Some(b) && b.count < MAX_FAILURES && now < b.resetAt && from <= now < from + WINDOW_MS
    ensures After(times + [now]) == Some(b.(count := b.count + 1))
    ensures Unlocked(times + [now], from) == Unlocked(times, from) + 1
  {
    Push(times, now, from);
  }

  lemma OrderedPush(times: seq<nat>, now: nat)
    requires Ordered(times) && (times == [] || times[|times| - 1] <= now)
    ensures Ordered(times + [now])
  {
  }

  /** A failure that opens a bucket. */
  lemma PushOpens(times: seq<nat>, now: nat, from: nat)
    requires Current(After(times), now).count == 0 && Ordered(times) && (times == [] || times[|times| - 1] <= now)
    ensures After(times + [now]) == Some(Bucket(1, now + WINDOW_MS)) && Ordered(times + [now])
    ensures Unlocked(times + [now], from) == Unlocked(times, from) + if from <= now < from + WINDOW_MS then 1 else 0
  {
    Push(times, now, from);
    OrderedPush(times, now);
  }

  /** Four failures at one time. */
  lemma PushFour(times: seq<nat>, now: nat, from: nat, b: Bucket) returns (more: seq<nat>)
    requires After(times) == Some(b) && b.count == 1 && now < b.resetAt && from <= now < from + WINDOW_MS
    requires Ordered(times) && times != [] && times[|times| - 1] <= now
    ensures After(more) == Some(b.(count := 5)) && Unlocked(more, from) == Unlocked(times, from) + 4
    ensures Ordered(more) && more != [] && more[|more| - 1] == now
  {
    more := times;
    for i := 0 to 4
      invariant After(more) == Some(b.(count := 1 + i)) && Unlocked(more, from) == Unlocked(times, from) + i
      invariant Ordered(more) && more != [] && more[|more| - 1] <= now && (i > 0 ==> more[|more| - 1] == now)
    {
      PushInto(more, now, from, b.(count := 1 + i));
      OrderedPush(more, now);
      more := more + [now];
    }
  }

  /** Nine can happen: one failure, four at the very end of its window, five right after. */
  lemma NineCanHappen()
    ensures exists times :: Ordered(times) && Unlocked(times, 1) == 9
  {
    PushOpens([], 0, 1);
    var five := PushFour([] + [0], WINDOW_MS - 1, 1, Bucket(1, WINDOW_MS));
    PushOpens(five, WINDOW_MS, 1);
    var ten := PushFour(five + [WINDOW_MS], WINDOW_MS, 1, Bucket(1, 2 * WINDOW_MS));
  }

  // ----- Locks --------------------------------------------------------------------------------------

  /** A lock holds, with the same end, at every later failure before that end, and not from then on. */
  lemma LockedUntilReset(times: seq<nat>, more: seq<nat>, now: nat)
    requires times != []
    requires Locks(After(times[..|times| - 1]), times[|times| - 1])
    requires After(times).Some?
    requires forall i | 0 <= i < |more| :: more[i] < After(times).value.resetAt
    ensures now < After(times).value.resetAt ==>
              After(times + more) == After(times) && Locks(After(times + more), now)
    ensures now >= After(times).value.resetAt ==> !Locks(After(times + more), now)
  {
    StaysFull(times, more);
  }

  lemma {:induction false} StaysFull(times: seq<nat>, more: seq<nat>)
    requires After(times).Some? && After(times).value.count >= MAX_FAILURES
    requires forall i | 0 <= i < |more| :: more[i] < After(times).value.resetAt
    ensures After(times + more) == After(times)
  {
    if more == [] {
      assert times + more == times;
    } else {
      var n := |more| - 1;
      StaysFull(times, more[..n]);
      Push(times + more[..n], more[n], 0);
      assert times + more[..n] + [more[n]] == times + more;
    }
  }
}

/** The cap on concurrent sessions (apps/api/src/auth/rate-limit.ts): atomic INCR and DECR, interleaved. */
module SessionCap {

  /** `Rolling`: counted, refused, and its DECR still to come. */
  datatype Phase = Open | Rolling | Refused | Closed

  /**
   `lost` is what the counter no longer knows: the sum of what it held at each expiry, which is the number of
   sessions and pending refusals that there were at the last one.
   */
  datatype State = State(counter: int, phases: map<nat, Phase>, lost: int)

  datatype Event = Incr(r: nat) | Rollback(r: nat) | Close(r: nat) | Expire

  predicate Enabled(s: State, e: Event) {
    match e
    case Incr(r) => r !in s.phases
    case Rollback(r) => r in s.phases && s.phases[r] == Rolling
    case Close(r) => r in s.phases && s.phases[r] == Open
    case Expire => true
  }

  function Apply(s: State, e: Event, max: nat): State
    requires Enabled(s, e)
  {
    match e
    case Incr(r) =>
      s.(counter := s.counter + 1, phases := s.phases[r := if s.counter + 1 > max then Rolling else Open])
    case Rollback(r) => s.(counter := s.counter - 1, phases := s.phases[r := Refused])
    case Close(r) => s.(counter := s.counter - 1, phases := s.phases[r := Closed])
    case Expire => s.(counter := 0, lost := s.lost + s.counter)
  }

  function In(s: State, p: Phase): set<nat> {
    set r | r in s.phases && s.phases[r] == p
  }

  ghost predicate IsRun(run: seq<State>, events: seq<Event>, max: nat) {
    && |run| == |events| + 1
    && run[0] == State(0, map[], 0)
    && forall i | 0 <= i < |events| :: Enabled(run[i], events[i]) && run[i + 1] == Apply(run[i], events[i], max)
  }

  /** What the counter holds, and what its key lost by expiring, is the sessions open or being refused. */
  ghost predicate Inv(s: State, max: nat) {
    && s.counter + s.lost == |In(s, Open)| + |In(s, Rolling)|
    && s.lost >= 0
    && |In(s, Open)| <= max + s.lost
  }

  lemma SetPhase(s: State, s': State, r: nat, p: Phase)
    requires s'.phases == s.phases[r := p]
    ensures In(s', p) == In(s, p) + {r}
    ensures forall q | q != p :: In(s', q) == In(s, q) - {r}
  {
  }

  lemma StepKeepsInv(s: State, e: Event, max: nat)
    requires Inv(s, max) && Enabled(s, e)
    ensures Inv(Apply(s, e, max), max)
  {
    var s' := Apply(s, e, max);
    if e.Expire? {
      assert forall p :: In(s', p) == In(s, p);
    } else {
      SetPhase(s, s', e.r, s'.phases[e.r]);
    }
  }

  lemma {:induction false} RunKeepsInv(run: seq<State>, events: seq<Event>, max: nat, i: nat)
    requires IsRun(run, events, max) && i < |run|
    ensures Inv(run[i], max)
  {
    if i > 0 {
      RunKeepsInv(run, events, max, i - 1);
      StepKeepsInv(run[i - 1], events[i - 1], max);
    } else {
      assert forall p :: In(run[0], p) == {};
    }
  }

  /** The key expires only while nothing is open or being refused. */
  ghost predicate ExpiresIdle(run: seq<State>, events: seq<Event>, max: nat)
    requires IsRun(run, events, max)
  {
    forall i | 0 <= i < |events| && events[i].Expire? :: In(run[i], Open) == {} && In(run[i], Rolling) == {}
  }

  lemma {:induction false} NothingLost(run: seq<State>, events: seq<Event>, max: nat, i: nat)
    requires IsRun(run, events, max) && ExpiresIdle(run, events, max) && i < |run|
    ensures run[i].lost == 0
  {
    if i > 0 {
      NothingLost(run, events, max, i - 1);
      RunKeepsInv(run, events, max, i - 1);
      assert run[i] == Apply(run[i - 1], events[i - 1], max);
    }
  }

  /**
   In every interleaving in which the key does not expire under sessions: the counter is the open
   sessions plus the refusals not yet rolled back, so at rest it is the open sessions; and never are
   more than `max` open.
   */
  lemma CapHolds(run: seq<State>, events: seq<Event>, max: nat, i: nat)
    requires IsRun(run, events, max) && ExpiresIdle(run, events, max) && i < |run|
    ensures run[i].counter == |In(run[i], Open)| + |In(run[i], Rolling)|
    ensures |In(run[i], Open)| <= max
  {
    RunKeepsInv(run, events, max, i);
    NothingLost(run, events, max, i);
  }

  /** A session is admitted exactly when, besides what an expiry forgot, fewer than `max` are counted. */
  lemma AdmittedIff(run: seq<State>, events: seq<Event>, max: nat, i: nat)
    requires IsRun(run, events, max) && i < |events| && events[i].Incr?
    ensures events[i].r in run[i + 1].phases
    ensures run[i + 1].phases[events[i].r] == Open
        <==> |In(run[i], Open)| + |In(run[i], Rolling)| < max + run[i].lost
  {
    RunKeepsInv(run, events, max, i);
    assert run[i + 1] == Apply(run[i], events[i], max);
  }

  // ----- What expiry does to the cap ------------------------------------------------------------------

  /** Some continuation of `s` in which the key does not expire has more than `max` sessions open. */
  ghost predicate CanExceed(s: State, max: nat) {
    exists run, events :: IsPath(s, run, events, max) && |In(run[|events|], Open)| > max
  }

  /** Steps from `s` without expiry. */
  ghost predicate IsPath(s: State, run: seq<State>, events: seq<Event>, max: nat) {
    && |run| == |events| + 1
    && run[0] == s
    && (forall i | 0 <= i < |events| :: !events[i].Expire?)
    && forall i | 0 <= i < |events| :: Enabled(run[i], events[i]) && run[i + 1] == Apply(run[i], events[i], max)
  }

  lemma {:induction false} PathKeepsInv(s: State, run: seq<State>, events: seq<Event>, max: nat, i: nat)
    requires Inv(s, max) && IsPath(s, run, events, max) && i < |run|
    ensures Inv(run[i], max) && run[i].lost == s.lost
  {
    if i > 0 {
      PathKeepsInv(s, run, events, max, i - 1);
      StepKeepsInv(run[i - 1], events[i - 1], max);
    }
  }

  lemma PathCons(s: State, e: Event, run: seq<State>, events: seq<Event>, max: nat)
    requires Enabled(s, e) && !e.Expire? && IsPath(Apply(s, e, max), run, events, max)
    ensures IsPath(s, [s] + run, [e] + events, max) && ([s] + run)[|events| + 1] == run[|events|]
  {
  }

  /** A request id nobody has used. */
  lemma FreshId(s: State) returns (r: nat)
    ensures r !in s.phases
  {
    r := 0;
    var rest := s.phases.Keys;
    while rest != {}
      invariant forall k <- s.phases.Keys :: k in rest || k < r
      decreases rest
    {
      var k :| k in rest;
      rest := rest - {k};
      if k >= r {
        r := k + 1;
      }
    }
  }

  /** Once something is lost: finish the refusals under way, then admit until `max` and the lost ones are open. */
  lemma {:induction false} LostMeansExceeds(s: State, max: nat) returns (run: seq<State>, events: seq<Event>)
    requires Inv(s, max) && s.lost > 0
    ensures IsPath(s, run, events, max) && |In(run[|events|], Open)| > max
    decreases |In(s, Rolling)|, max + s.lost - |In(s, Open)|
  {
    if |In(s, Open)| > max {
      run, events := [s], [];
    } else {
      var e: Event;
      if r :| r in In(s, Rolling) {
        e := Rollback(r);
        SetPhase(s, Apply(s, e, max), r, Refused);
      } else {
        assert In(s, Rolling) == {};
        var r := FreshId(s);
        e := Incr(r);
        SetPhase(s, Apply(s, e, max), r, Open);
      }
      StepKeepsInv(s, e, max);
      run, events := LostMeansExceeds(Apply(s, e, max), max);
      PathCons(s, e, run, events, max);
      run, events := [s] + run, [e] + events;
    }
  }

  /**
   Exactly when the cap is no longer kept: from a reachable state the sessions open can come to exceed
   `max`, with no further expiry, if and only if the last expiry forgot a session or a refusal.
   */
  lemma CapFailsIffLost(run: seq<State>, events: seq<Event>, max: nat, i: nat)
    requires IsRun(run, events, max) && i < |run|
    ensures CanExceed(run[i], max) <==> run[i].lost > 0
  {
    RunKeepsInv(run, events, max, i);
    if run[i].lost > 0 {
      var r, e := LostMeansExceeds(run[i], max);
    } else if CanExceed(run[i], max) {
      var r, e :| IsPath(run[i], r, e, max) && |In(r[|e|], Open)| > max;
      PathKeepsInv(run[i], r, e, max, |e|);
    }
  }

  /** One expiry with one session counted is enough to exceed any cap, also a cap of none. */
  lemma ExpiryBreaksCap(max: nat)
    ensures exists run, events :: IsRun(run, events, max) && |events| == 2 && CanExceed(run[2], max)
  {
    var s0 := State(0, map[], 0);
    var s1 := Apply(s0, Incr(0), max);
    var run, events := [s0, s1, Apply(s1, Expire, max)], [Incr(0), Expire];
    assert IsRun(run, events, max);
    CapFailsIffLost(run, events, max, 2);
  }

  /** The two calls on their own. */
  class Store {
    var counter: int

    constructor ()
      ensures counter == 0
    {
      counter := 0;
    }

    method Incr() returns (current: int)
      modifies this
      ensures current == counter == old(counter) + 1
    {
      counter := counter + 1;
      return counter;
    }

    method Decr()
      modifies this
      ensures counter == old(counter) - 1
    {
      counter := counter - 1;
    }

    /** `incrementConcurrentSessions`: a refusal leaves no trace. */
    method IncrementConcurrentSessions(max: nat) returns (allowed: bool)
      modifies this
      ensures allowed <==> old(counter) < max
      ensures counter == old(counter) + if allowed then 1 else 0
    {
      var current := Incr();
      if current > max {
        Decr();
        return false;
      }
      return true;
    }
  }
}

/**
 Replay rejection of TOTP codes (apps/api/src/auth/second-factor.ts).

 A request first verifies a code against the clock, then runs a transaction that
 takes an advisory lock on the matched step, reads the eight newest
 `2fa.verified` rows of the user, refuses when one of them names the step, and
 otherwise inserts a row.  Requests for different steps run concurrently, so the
 protocol is a state machine whose steps are the awaits of that code.

 Times are milliseconds.  One user is modelled: the query filters on the user
 and the lock key contains the user.
 */
module TotpReplay {
  import opened Sequences

  const PERIOD_MS: nat := 30000
  const LOOK_BACK: nat := 8

  /** The 30-second step that contains the instant `t`. */
  function StepAt(t: nat): nat {
    t / PERIOD_MS
  }

  /** The acceptance window of `verifyCodeDetailed` with its default of one step either side. */
  predicate InWindow(step: int, t: nat) {
    StepAt(t) - 1 <= step <= StepAt(t) + 1
  }

  /** A `2fa.verified` row.  `verifiedAt` is a history variable: the table does not store it. */
  datatype Row = Row(step: int, createdAt: nat, verifiedAt: nat)

  datatype Outcome = Accepted | Replayed | Unavailable

  /** Where a request stands between two awaits. */
  datatype Phase =
    | Verified(step: int, at: nat)
    | Locked(step: int, at: nat)
    | Checked(step: int, at: nat)
    | Inserted(step: int, at: nat, createdAt: nat)
    | Done(outcome: Outcome)

  /** Committed rows in commit order, and every request that ever started. */
  datatype State = State(clock: nat, rows: seq<Row>, requests: map<nat, Phase>)

  predicate HoldsLock(p: Phase) {
    p.Locked? || p.Checked? || p.Inserted?
  }

  /** The lock table admits one holder for a step. */
  predicate LockFree(s: State, step: int) {
    forall id <- s.requests :: HoldsLock(s.requests[id]) ==> s.requests[id].step != step
  }

  // ----- The eight-row query ------------------------------------------------

  /**
   `page` is an answer to ORDER BY created_at DESC LIMIT 8: distinct row positions, newest
   first, as many as fit, and no row left out is newer than a row returned.  Rows
   with equal timestamps may come in any order.
   */
  predicate IsPage(rows: seq<Row>, page: seq<nat>) {
    && |page| == (if |rows| < LOOK_BACK then |rows| else LOOK_BACK)
    && (forall i | 0 <= i < |page| :: page[i] < |rows|)
    && (forall i, j | 0 <= i < j < |page| :: page[i] != page[j])
    && (forall i, j | 0 <= i < j < |page| :: rows[page[i]].createdAt >= rows[page[j]].createdAt)
    && (forall k, i | 0 <= k < |rows| && k !in page && 0 <= i < |page| ::
          rows[k].createdAt <= rows[page[i]].createdAt)
  }

  /** What the scan of the page decides. */
  predicate PageNames(rows: seq<Row>, page: seq<nat>, step: int)
    requires IsPage(rows, page)
  {
    exists i | 0 <= i < |page| :: rows[page[i]].step == step
  }

  /** What a scan of the whole history would decide. */
  predicate EverAccepted(rows: seq<Row>, step: int) {
    exists k | 0 <= k < |rows| :: rows[k].step == step
  }

  // ----- The protocol -------------------------------------------------------

  datatype Event =
    | Tick(to: nat)
    | Verify(id: nat, step: int)
    | Lock(id: nat)
    | Scan(id: nat, page: seq<nat>)
    | Insert(id: nat)
    | Commit(id: nat)
    | Abort(id: nat)

  predicate Init(s: State) {
    s.rows == [] && s.requests == map[]
  }

  /**
   One step.  `delay` bounds, for every request, the time from the
   clock reading of the verification to the read of the rows and to the `created_at`
   of the insert.  The commit may come arbitrarily later, and a transaction may
   fail at any point.
   */
  predicate Step(delay: nat, s: State, e: Event, s': State) {
    match e
    case Tick(to) =>
      s.clock <= to && s' == s.(clock := to)
    case Verify(id, step) =>
      && id !in s.requests
      && InWindow(step, s.clock)
      && s' == s.(requests := s.requests[id := Verified(step, s.clock)])
    case Lock(id) =>
      && id in s.requests && s.requests[id].Verified?
      && LockFree(s, s.requests[id].step)
      && s' == s.(requests := s.requests[id := Locked(s.requests[id].step, s.requests[id].at)])
    case Scan(id, page) =>
      && id in s.requests && s.requests[id].Locked?
      && s.clock <= s.requests[id].at + delay
      && IsPage(s.rows, page)
      && s' == s.(requests := s.requests[id :=
                    if PageNames(s.rows, page, s.requests[id].step) then Done(Replayed)
                    else Checked(s.requests[id].step, s.requests[id].at)])
    case Insert(id) =>
      && id in s.requests && s.requests[id].Checked?
      && s.clock <= s.requests[id].at + delay
      && s' == s.(requests := s.requests[id := Inserted(s.requests[id].step, s.requests[id].at, s.clock)])
    case Commit(id) =>
      && id in s.requests && s.requests[id].Inserted?
      && s' == s.(rows := s.rows + [RowOf(s.requests[id])], requests := s.requests[id := Done(Accepted)])
    case Abort(id) =>
      && id in s.requests && !s.requests[id].Done?
      && s' == s.(requests := s.requests[id := Done(Unavailable)])
  }

  function RowOf(p: Phase): Row
    requires p.Inserted?
  {
    Row(p.step, p.createdAt, p.at)
  }

  /** A run: one event between each two neighbouring states. */
  predicate IsRun(delay: nat, states: seq<State>, events: seq<Event>) {
    && |states| == |events| + 1
    && Init(states[0])
    && forall i | 0 <= i < |events| :: Step(delay, states[i], events[i], states[i + 1])
  }

  // ----- What every step keeps ----------------------------------------------

  predicate DistinctSteps(rows: seq<Row>) {
    forall i, j | 0 <= i < j < |rows| :: rows[i].step != rows[j].step
  }

  predicate RowInTime(r: Row, delay: nat, clock: nat) {
    && InWindow(r.step, r.verifiedAt)
    && r.verifiedAt <= r.createdAt <= clock
    && r.createdAt <= r.verifiedAt + delay
  }

  predicate PhaseOk(p: Phase, delay: nat, clock: nat, rows: seq<Row>) {
    && (!p.Done? ==> InWindow(p.step, p.at) && p.at <= clock)
    && (p.Checked? || p.Inserted? ==> !EverAccepted(rows, p.step))
    && (p.Inserted? ==> RowInTime(RowOf(p), delay, clock))
  }

  predicate LocksExclusive(requests: map<nat, Phase>) {
    forall a <- requests, b <- requests |
      a != b && HoldsLock(requests[a]) && HoldsLock(requests[b]) ::
      requests[a].step != requests[b].step
  }

  predicate Inv(delay: nat, s: State) {
    && DistinctSteps(s.rows)
    && (forall i | 0 <= i < |s.rows| :: RowInTime(s.rows[i], delay, s.clock))
    && (forall id <- s.requests :: PhaseOk(s.requests[id], delay, s.clock, s.rows))
    && LocksExclusive(s.requests)
  }

  /**
   Rows at least as new as an earlier acceptance of `step`, seen by a request that may
   still present `step`, name steps at most three away from it.
   */
  lemma NewerRowsAreNear(delay: nat, clock: nat, first: Row, other: Row, at: nat)
    requires delay <= PERIOD_MS
    requires RowInTime(first, delay, clock) && RowInTime(other, delay, clock)
    requires other.createdAt >= first.createdAt
    requires InWindow(first.step, at) && clock <= at + delay
    ensures first.step - 3 <= other.step <= first.step + 3
  {
  }

  function StepsOf(rows: seq<Row>, page: seq<nat>): (steps: set<int>)
    requires forall i | 0 <= i < |page| :: page[i] < |rows|
  {
    set i | 0 <= i < |page| :: rows[page[i]].step
  }

  lemma {:induction false} PageStepsCount(rows: seq<Row>, page: seq<nat>)
    requires DistinctSteps(rows)
    requires forall i | 0 <= i < |page| :: page[i] < |rows|
    requires forall i, j | 0 <= i < j < |page| :: page[i] != page[j]
    ensures |StepsOf(rows, page)| == |page|
  {
    if |page| > 0 {
      var n := |page| - 1;
      PageStepsCount(rows, page[..n]);
      var rest := StepsOf(rows, page[..n]);
      assert rows[page[n]].step !in rest;
      assert StepsOf(rows, page) == rest + {rows[page[n]].step};
    }
  }

  lemma SubsetCard<T>(a: set<T>, b: set<T>)
    requires a <= b
    ensures |a| <= |b|
  {
    assert b == a + (b - a);
  }

  /**
   Eight rows are enough: whatever page the query returns, scanning it decides the
   same as scanning the whole history.  Were the earlier row left out, the page
   would hold eight distinct steps, all within three of `step` and none equal to it.
   */
  lemma LookBackSuffices(delay: nat, s: State, id: nat, page: seq<nat>)
    requires delay <= PERIOD_MS
    requires Inv(delay, s)
    requires id in s.requests && s.requests[id].Locked?
    requires s.clock <= s.requests[id].at + delay
    requires IsPage(s.rows, page)
    ensures PageNames(s.rows, page, s.requests[id].step) <==> EverAccepted(s.rows, s.requests[id].step)
  {
    var step := s.requests[id].step;
    if EverAccepted(s.rows, step) && !PageNames(s.rows, page, step) {
      var k :| 0 <= k < |s.rows| && s.rows[k].step == step;
      assert k !in page;
      assert PhaseOk(s.requests[id], delay, s.clock, s.rows);
      OmittedRowIsImpossible(delay, s, s.requests[id].at, page, k);
    }
  }

  /** The other steps that are at most three away. */
  function Near(step: int): set<int> {
    {step - 3, step - 2, step - 1, step + 1, step + 2, step + 3}
  }

  lemma NearIsSmall(step: int)
    ensures |Near(step)| == 6
  {
  }

  lemma PageIsNear(delay: nat, rows: seq<Row>, clock: nat, at: nat, page: seq<nat>, k: nat)
    requires delay <= PERIOD_MS && IsPage(rows, page)
    requires forall i | 0 <= i < |rows| :: RowInTime(rows[i], delay, clock)
    requires k < |rows| && k !in page && InWindow(rows[k].step, at) && clock <= at + delay
    requires !PageNames(rows, page, rows[k].step)
    ensures StepsOf(rows, page) <= Near(rows[k].step)
  {
    forall i | 0 <= i < |page|
      ensures rows[page[i]].step in Near(rows[k].step)
    {
      OmittedIsOlder(rows, page, k, i);
      NewerRowsAreNear(delay, clock, rows[k], rows[page[i]], at);
      StepsInNear(rows[k].step, rows[page[i]].step);
    }
  }

  lemma OmittedIsOlder(rows: seq<Row>, page: seq<nat>, k: nat, i: nat)
    requires IsPage(rows, page) && k < |rows| && k !in page && i < |page|
    ensures page[i] < |rows| && rows[k].createdAt <= rows[page[i]].createdAt
  {
  }

  lemma StepsInNear(step: int, other: int)
    requires step - 3 <= other <= step + 3 && other != step
    ensures other in Near(step)
  {
  }

  lemma OmittedRowIsImpossible(delay: nat, s: State, at: nat, page: seq<nat>, k: nat)
    requires delay <= PERIOD_MS && DistinctSteps(s.rows) && IsPage(s.rows, page)
    requires forall i | 0 <= i < |s.rows| :: RowInTime(s.rows[i], delay, s.clock)
    requires k < |s.rows| && k !in page
    requires InWindow(s.rows[k].step, at) && s.clock <= at + delay
    ensures PageNames(s.rows, page, s.rows[k].step)
  {
    if |s.rows| < LOOK_BACK {
      AllPositionsPaged(|s.rows|, page, k);
    } else if !PageNames(s.rows, page, s.rows[k].step) {
      PageIsNear(delay, s.rows, s.clock, at, page, k);
      PageStepsCount(s.rows, page);
      NearIsSmall(s.rows[k].step);
      SubsetCard(StepsOf(s.rows, page), Near(s.rows[k].step));
      assert false;
    }
  }

  /** As many distinct positions as there are rows leave none out. */
  lemma AllPositionsPaged(n: nat, page: seq<nat>, k: nat)
    requires |page| == n && k < n
    requires forall i | 0 <= i < |page| :: page[i] < n
    requires forall i, j | 0 <= i < j < |page| :: page[i] != page[j]
    ensures k in page
  {
    var paged := set i | 0 <= i < |page| :: page[i];
    DistinctCount(page);
    if k !in page {
      assert paged <= Positions(n) - {k};
      SubsetCard(paged, Positions(n) - {k});
    }
  }

  function Positions(n: nat): (ps: set<nat>)
    ensures |ps| == n
    ensures forall i: nat :: i in ps <==> i < n
  {
    if n == 0 then {} else Positions(n - 1) + {n - 1}
  }

  lemma {:induction false} DistinctCount(page: seq<nat>)
    requires forall i, j | 0 <= i < j < |page| :: page[i] != page[j]
    ensures |set i | 0 <= i < |page| :: page[i]| == |page|
  {
    if |page| > 0 {
      var n := |page| - 1;
      DistinctCount(page[..n]);
      var rest := set i | 0 <= i < n :: page[..n][i];
      assert page[n] !in rest;
      assert (set i | 0 <= i < |page| :: page[i]) == rest + {page[n]};
    }
  }

  /** One request moves on, and the rows stay. */
  lemma MoveKeepsInv(delay: nat, s: State, s': State, id: nat)
    requires Inv(delay, s) && s'.rows == s.rows && s'.clock == s.clock
    requires id in s'.requests && s'.requests == s.requests[id := s'.requests[id]]
    requires PhaseOk(s'.requests[id], delay, s.clock, s.rows)
    requires HoldsLock(s'.requests[id]) ==>
               if id in s.requests && HoldsLock(s.requests[id]) then s.requests[id].step == s'.requests[id].step
               else LockFree(s, s'.requests[id].step)
    ensures Inv(delay, s')
  {
    forall other <- s'.requests ensures PhaseOk(s'.requests[other], delay, s'.clock, s'.rows) {
      assert other != id ==> PhaseOk(s.requests[other], delay, s.clock, s.rows);
    }
  }

  lemma TickKeepsInv(delay: nat, s: State, s': State)
    requires Inv(delay, s) && s.clock <= s'.clock && s' == s.(clock := s'.clock)
    ensures Inv(delay, s')
  {
    forall id <- s'.requests ensures PhaseOk(s'.requests[id], delay, s'.clock, s'.rows) {
      assert PhaseOk(s.requests[id], delay, s.clock, s.rows);
    }
  }

  lemma CommitKeepsInv(delay: nat, s: State, id: nat, s': State)
    requires Inv(delay, s) && Step(delay, s, Commit(id), s')
    ensures Inv(delay, s')
  {
    assert PhaseOk(s.requests[id], delay, s.clock, s.rows);
    forall other <- s'.requests ensures PhaseOk(s'.requests[other], delay, s'.clock, s'.rows) {
      assert other != id ==> PhaseOk(s.requests[other], delay, s.clock, s.rows);
    }
  }

  lemma StepKeepsInv(delay: nat, s: State, e: Event, s': State)
    requires delay <= PERIOD_MS
    requires Inv(delay, s) && Step(delay, s, e, s')
    ensures Inv(delay, s')
  {
    if e.Tick? {
      TickKeepsInv(delay, s, s');
    } else if e.Commit? {
      CommitKeepsInv(delay, s, e.id, s');
    } else {
      if e.Scan? {
        LookBackSuffices(delay, s, e.id, e.page);
      }
      assert e.id in s.requests ==> PhaseOk(s.requests[e.id], delay, s.clock, s.rows);
      MoveKeepsInv(delay, s, s', e.id);
    }
  }

  /**
   Safety over whole runs: with verify-to-insert delays of at most one period, no
   reachable state holds two acceptances of one step, however requests interleave.
   */
  lemma {:induction false} NoStepAcceptedTwice(delay: nat, states: seq<State>, events: seq<Event>, n: nat)
    requires delay <= PERIOD_MS
    requires IsRun(delay, states, events) && n < |states|
    ensures Inv(delay, states[n])
    ensures DistinctSteps(states[n].rows)
  {
    if n > 0 {
      NoStepAcceptedTwice(delay, states, events, n - 1);
      StepKeepsInv(delay, states[n - 1], events[n - 1], states[n]);
    }
  }

  /** In every such run, every scan gives the verdict of the whole history. */
  lemma EveryScanIsExact(delay: nat, states: seq<State>, events: seq<Event>, n: nat)
    requires delay <= PERIOD_MS
    requires IsRun(delay, states, events) && n < |events| && events[n].Scan?
    ensures var id := events[n].id;
            id in states[n].requests && states[n].requests[id].Locked? && id in states[n + 1].requests &&
            (states[n + 1].requests[id] == Done(Replayed) <==>
             EverAccepted(states[n].rows, states[n].requests[id].step))
  {
    NoStepAcceptedTwice(delay, states, events, n);
    assert Step(delay, states[n], events[n], states[n + 1]);
    LookBackSuffices(delay, states[n], events[n].id, events[n].page);
  }

  // ----- One period is the exact bound ----------------------------------------

  ghost predicate Reachable(delay: nat, s: State) {
    exists states: seq<State>, events: seq<Event> ::
      IsRun(delay, states, events) && states[|states| - 1] == s
  }

  lemma ReachableStep(delay: nat, s: State, e: Event, s': State)
    requires Reachable(delay, s) && Step(delay, s, e, s')
    ensures Reachable(delay, s')
  {
    var states: seq<State>, events: seq<Event> :|
      IsRun(delay, states, events) && states[|states| - 1] == s;
    var states', events' := states + [s'], events + [e];
    forall i | 0 <= i < |events'| ensures Step(delay, states'[i], events'[i], states'[i + 1]) {
      if i < |events| {
        assert Step(delay, states[i], events[i], states[i + 1]);
      }
    }
    assert IsRun(delay, states', events');
  }

  predicate Idle(s: State) {
    forall id <- s.requests :: !HoldsLock(s.requests[id])
  }

  /** Request `id`, verified earlier, runs its whole transaction at the current instant. */
  lemma ReachAccept(delay: nat, s: State, id: nat, page: seq<nat>) returns (s': State)
    requires Reachable(delay, s) && Idle(s)
    requires id in s.requests && s.requests[id].Verified? && s.clock <= s.requests[id].at + delay
    requires IsPage(s.rows, page) && !PageNames(s.rows, page, s.requests[id].step)
    ensures Reachable(delay, s') && Idle(s')
    ensures s' == State(s.clock,
                        s.rows + [Row(s.requests[id].step, s.clock, s.requests[id].at)],
                        s.requests[id := Done(Accepted)])
  {
    var p := s.requests[id];
    var s1 := s.(requests := s.requests[id := Locked(p.step, p.at)]);
    ReachableStep(delay, s, Lock(id), s1);
    var s2 := s1.(requests := s1.requests[id := Checked(p.step, p.at)]);
    ReachableStep(delay, s1, Scan(id, page), s2);
    var s3 := s2.(requests := s2.requests[id := Inserted(p.step, p.at, s.clock)]);
    ReachableStep(delay, s2, Insert(id), s3);
    s' := s3.(rows := s3.rows + [RowOf(s3.requests[id])], requests := s3.requests[id := Done(Accepted)]);
    ReachableStep(delay, s3, Commit(id), s');
    assert s'.requests == s.requests[id := Done(Accepted)];
  }

  /** A request reads the clock at `at` and matches `step`. */
  lemma ReachVerify(delay: nat, s: State, at: nat, id: nat, step: int) returns (s': State)
    requires Reachable(delay, s) && Idle(s)
    requires s.clock <= at && id !in s.requests && InWindow(step, at)
    ensures Reachable(delay, s') && Idle(s')
    ensures s' == State(at, s.rows, s.requests[id := Verified(step, at)])
  {
    var s1 := s.(clock := at);
    ReachableStep(delay, s, Tick(at), s1);
    s' := s1.(requests := s1.requests[id := Verified(step, at)]);
    ReachableStep(delay, s1, Verify(id, step), s');
  }

  predicate InOrder(s: State) {
    && (forall i, j | 0 <= i < j < |s.rows| :: s.rows[i].createdAt <= s.rows[j].createdAt)
    && (forall i | 0 <= i < |s.rows| :: s.rows[i].createdAt <= s.clock)
  }

  /** As `ReachAccept`, for rows committed in timestamp order and the page that lists the latest commits. */
  lemma ReachAcceptLatest(delay: nat, s: State, id: nat) returns (s': State)
    requires Reachable(delay, s) && Idle(s) && InOrder(s)
    requires id in s.requests && s.requests[id].Verified? && s.clock <= s.requests[id].at + delay
    requires forall i | 0 <= i < |s.rows| && |s.rows| - LOOK_BACK <= i :: s.rows[i].step != s.requests[id].step
    ensures Reachable(delay, s') && Idle(s') && InOrder(s')
    ensures s' == State(s.clock,
                        s.rows + [Row(s.requests[id].step, s.clock, s.requests[id].at)],
                        s.requests[id := Done(Accepted)])
  {
    var n := |s.rows|;
    var page := seq(if n < LOOK_BACK then n else LOOK_BACK, i requires 0 <= i < n => n - 1 - i);
    forall k | 0 <= k < n && n - LOOK_BACK <= k ensures k in page {
      assert page[n - 1 - k] == k;
    }
    s' := ReachAccept(delay, s, id, page);
  }

  /** A request that verifies and commits within one instant. */
  lemma ReachPrompt(delay: nat, s: State, at: nat, id: nat, step: int) returns (s': State)
    requires Reachable(delay, s) && Idle(s) && InOrder(s)
    requires s.clock <= at && id !in s.requests && InWindow(step, at)
    requires forall i | 0 <= i < |s.rows| && |s.rows| - LOOK_BACK <= i :: s.rows[i].step != step
    ensures Reachable(delay, s') && Idle(s') && InOrder(s')
    ensures s' == State(at, s.rows + [Row(step, at, at)], s.requests[id := Done(Accepted)])
  {
    s' := ReachVerify(delay, s, at, id, step);
    s' := ReachAcceptLatest(delay, s', id);
    assert s'.requests == s.requests[id := Done(Accepted)];
  }

  /** Step 10 is accepted at 270 s, then steps 6 and 7, verified before, get rows with the same timestamp. */
  lemma ReplayStart(delay: nat) returns (s: State)
    requires delay > PERIOD_MS
    ensures Reachable(delay, s) && Idle(s) && InOrder(s) && s.clock == 270000
    ensures s.rows == [Row(10, 270000, 270000), Row(6, 270000, 239999), Row(7, 270000, 240000)]
    ensures forall id <- s.requests :: id < 3
  {
    s := State(0, [], map[]);
    assert IsRun(delay, [s], []);
    s := ReachVerify(delay, s, 239999, 1, 6);
    s := ReachVerify(delay, s, 240000, 2, 7);
    s := ReachPrompt(delay, s, 270000, 0, 10);
    s := ReachAcceptLatest(delay, s, 1);
    s := ReachAcceptLatest(delay, s, 2);
  }

  /** Steps 8 and 9 follow at the same time. */
  lemma ReplayFirstHalf(delay: nat) returns (s: State)
    requires delay > PERIOD_MS
    ensures Reachable(delay, s) && Idle(s) && InOrder(s) && s.clock == 270000
    ensures s.rows == [Row(10, 270000, 270000), Row(6, 270000, 239999), Row(7, 270000, 240000),
                       Row(8, 270000, 270000), Row(9, 270000, 270000)]
    ensures forall id <- s.requests :: id < 5
  {
    s := ReplayStart(delay);
    s := ReachPrompt(delay, s, 270000, 3, 8);
    s := ReachPrompt(delay, s, 270000, 4, 9);
  }

  /**
   With any larger bound the look-back is too short: after the four earlier steps four later ones follow, and
   a request that showed step 10 again, a millisecond more than a period before, is accepted last.
   */
  lemma LongerDelayAdmitsReplay(delay: nat) returns (s: State)
    requires delay > PERIOD_MS
    ensures Reachable(delay, s)
    ensures |s.rows| == 10 && s.rows[0].step == s.rows[9].step == 10
  {
    s := ReplayFirstHalf(delay);
    s := ReachPrompt(delay, s, 300000, 5, 11);
    s := ReachPrompt(delay, s, 330000, 6, 12);
    s := ReachVerify(delay, s, 359999, 9, 10);
    s := ReachPrompt(delay, s, 360000, 7, 13);
    s := ReachPrompt(delay, s, 390000, 8, 14);
    s := ReachAcceptLatest(delay, s, 9);
  }

  /** The eight-row look-back rejects every replay in every run if and only if the delay stays within one period. */
  lemma LookBackSafeIffWithinPeriod(delay: nat)
    ensures (forall s | Reachable(delay, s) :: DistinctSteps(s.rows)) <==> delay <= 30_000
  {
    if delay <= PERIOD_MS {
      forall s | Reachable(delay, s) ensures DistinctSteps(s.rows) {
        var states: seq<State>, events: seq<Event> :|
          IsRun(delay, states, events) && states[|states| - 1] == s;
        NoStepAcceptedTwice(delay, states, events, |states| - 1);
      }
    } else {
      var s := LongerDelayAdmitsReplay(delay);
      assert !DistinctSteps(s.rows);
    }
  }

  // ----- The transaction body on the audit_log table --------------------------

  /** The `metadata` column: JSON with an optional `totp_step`, or text that does not parse. */
  datatype Metadata = Unparsable | NoStep | TotpStep(step: int)

  datatype AuditRow = AuditRow(userId: string, action: string, targetType: string, targetId: string,
                               metadata: Metadata, createdAt: nat)

  /** The WHERE clause of the look-back query. */
  predicate IsVerification(r: AuditRow, userId: string) {
    r.userId == userId && r.action == "2fa.verified" && r.targetType == "user" && r.targetId == userId
  }

  function Verifications(rows: seq<AuditRow>, userId: string): seq<AuditRow> {
    if rows == [] then []
    else
      var rest := Verifications(rows[..|rows| - 1], userId);
      if IsVerification(rows[|rows| - 1], userId) then rest + [rows[|rows| - 1]] else rest
  }

  /** The rows that this user's acceptances have written, all of them, in order. */
  lemma {:induction false} VerificationsPick(rows: seq<AuditRow>, userId: string) returns (at: seq<nat>)
    ensures Picks(rows, (r: AuditRow) => r.userId == userId && r.action == "2fa.verified" && r.targetType == "user" &&
                                         r.targetId == userId, Verifications(rows, userId), at)
  {
    var keep := (r: AuditRow) =>
      r.userId == userId && r.action == "2fa.verified" && r.targetType == "user" && r.targetId == userId;
    if rows == [] {
      at := [];
    } else {
      var n := |rows| - 1;
      at := VerificationsPick(rows[..n], userId);
      assert rows == rows[..n] + [rows[n]];
      PicksSnoc(rows[..n], keep, Verifications(rows[..n], userId), at, rows[n]);
      at := if keep(rows[n]) then at + [n] else at;
    }
  }

  /** The verification rows of a user are the rows of the protocol, up to when each was verified. */
  predicate Represents(table: seq<AuditRow>, rows: seq<Row>) {
    && |table| == |rows|
    && forall i | 0 <= i < |rows| ::
         table[i].metadata == TotpStep(rows[i].step) && table[i].createdAt == rows[i].createdAt
  }

  /** The answer of the query lists these positions of the table. */
  predicate Lists(answer: seq<AuditRow>, table: seq<AuditRow>, page: seq<nat>) {
    && |answer| == |page|
    && forall i | 0 <= i < |page| :: page[i] < |table| && answer[i] == table[page[i]]
  }

  class AuditLog {
    var rows: seq<AuditRow>

    constructor ()
      ensures rows == []
    {
      rows := [];
    }

    /**
     The body of `consumeTotpStep`.  `answer` is what the database returned for the
     look-back query.  A refusal leaves the table alone; an acceptance adds one row to the
     history of this user and none to that of anybody else.  If the answer is a page of the user's
     history, the verdict is that of the protocol's scan, and what is added is the row it commits.
     */
    method ConsumeTotpStep(userId: string, step: int, answer: seq<AuditRow>, now: nat,
                           ghost history: seq<Row>, ghost page: seq<nat>, ghost at: nat) returns (verdict: Outcome)
      modifies this
      ensures var table := old(Verifications(rows, userId));
              Represents(table, history) && IsPage(history, page) && Lists(answer, table, page) ==>
                (verdict == Replayed <==> PageNames(history, page, step))
      ensures old(Represents(Verifications(rows, userId), history)) && verdict == Accepted ==>
                Represents(Verifications(rows, userId), history + [RowOf(Inserted(step, at, now))])
      ensures verdict == Replayed || verdict == Accepted
      ensures verdict == Replayed <==> exists i | 0 <= i < |answer| :: answer[i].metadata == TotpStep(step)
      ensures verdict == Replayed ==> rows == old(rows)
      ensures verdict == Accepted ==>
                Verifications(rows, userId) ==
                old(Verifications(rows, userId)) +
                [AuditRow(userId, "2fa.verified", "user", userId, TotpStep(step), now)]
      ensures forall other | other != userId :: Verifications(rows, other) == old(Verifications(rows, other))
    {
      var i := 0;
      while i < |answer|
        invariant 0 <= i <= |answer|
        invariant forall j | 0 <= j < i :: answer[j].metadata != TotpStep(step)
        invariant rows == old(rows)
      {
        match answer[i].metadata {
          case Unparsable =>
          case NoStep =>
          case TotpStep(seen) =>
            if seen == step {
              return Replayed;
            }
        }
        i := i + 1;
      }
      var row := AuditRow(userId, "2fa.verified", "user", userId, TotpStep(step), now);
      assert (rows + [row])[..|rows|] == rows;
      rows := rows + [row];
      verdict := Accepted;
    }
  }
}

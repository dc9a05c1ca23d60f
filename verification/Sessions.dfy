/**
 Refresh-token rotation (apps/api/src/auth/sessions.ts and the refresh route of
 apps/api/src/routes/auth.ts): one session row, any number of requests whose database calls interleave.
 */
module Sessions {
  import opened Wrappers

  type Token = nat

  /** A stored bcrypt hash. Two tokens never share one. */
  datatype Hash = Hash(of: Token)

  predicate Compare(token: Token, hash: Hash) {
    hash == Hash(token)
  }

  datatype Row = Row(hash: Hash, rotatedAt: Option<nat>, revokedAt: Option<nat>, expiresAt: nat)

  const SESSION_TTL: nat := 7 * 24 * 60 * 60 * 1000
  const GRACE: nat := 10_000

  // ----- Single database calls ------------------------------------------------------------------

  /** The row as `verifyRefreshToken` selects it. */
  function Selected(row: Row): Option<Row> {
    if row.revokedAt.None? then Some(row) else None
  }

  predicate Verifies(selected: Option<Row>, token: Token, now: nat) {
    selected.Some? && now <= selected.value.expiresAt && Compare(token, selected.value.hash)
  }

  predicate SwapApplies(row: Row, expected: Hash) {
    row.hash == expected && row.revokedAt.None?
  }

  /** The row after a rotation that applies. */
  function Rotated(row: Row, issued: Token, at: nat): Row {
    row.(hash := Hash(issued), rotatedAt := Some(at), expiresAt := at + SESSION_TTL)
  }

  function Revoked(row: Row, now: nat): Row {
    row.(revokedAt := Some(now))
  }

  /** `revokeSessionFamily` leaves an earlier revocation date alone. */
  function FamilyRevoked(row: Row, now: nat): Row {
    if row.revokedAt.None? then Revoked(row, now) else row
  }

  /** Within the grace period a failed verification counts as a lost race. */
  predicate InGrace(rotatedAt: Option<nat>, revokedAt: Option<nat>, now: nat) {
    revokedAt.None? && rotatedAt.Some? && now - rotatedAt.value < GRACE
  }

  // ----- The table, one request at a time -------------------------------------------------------

  datatype Outcome = NewToken(token: Token) | RotatedElsewhere | Unauthenticated

  class Table {
    var rows: map<string, Row>

    constructor ()
      ensures rows == map[]
    {
      rows := map[];
    }

    /**
     `createSession`: exactly this token verifies, for seven days, and can be exchanged; a wrong one is
     not taken for a lost race.
     */
    method CreateSession(id: string, token: Token, now: nat)
      modifies this
      ensures id in rows && rows - {id} == old(rows) - {id}
      ensures forall t: Token, n: nat :: Verifies(Selected(rows[id]), t, n) <==> t == token && n <= now + 604_800_000
      ensures forall h: Hash :: SwapApplies(rows[id], h) <==> h == Hash(token)
      ensures forall n: nat :: !InGrace(rows[id].rotatedAt, rows[id].revokedAt, n)
    {
      rows := rows[id := Row(Hash(token), None, None, now + SESSION_TTL)];
    }

    /** `verifyRefreshToken` */
    method VerifyRefreshToken(id: string, token: Token, now: nat) returns (session: Option<Row>)
      ensures session.Some? <==> id in rows && Verifies(Selected(rows[id]), token, now)
      ensures session.Some? ==> session.value == rows[id]
    {
      if id !in rows || rows[id].revokedAt.Some? {
        return None;
      }
      var row := rows[id];
      if row.expiresAt < now || !Compare(token, row.hash) {
        return None;
      }
      return Some(row);
    }

    /** `rotateRefreshToken` */
    method RotateRefreshToken(id: string, expected: Hash, issued: Token, now: nat) returns (done: bool)
      modifies this
      ensures done <==> id in old(rows) && SwapApplies(old(rows)[id], expected)
      ensures rows == if done then old(rows)[id := Row(Hash(issued), Some(now), None, now + 604_800_000)] else old(rows)
      ensures done ==> forall t: Token, n: nat ::
                Verifies(Selected(rows[id]), t, n) <==> t == issued && n <= now + 604_800_000
    {
      done := id in rows && rows[id].hash == expected && rows[id].revokedAt.None?;
      if done {
        rows := rows[id := rows[id].(hash := Hash(issued), rotatedAt := Some(now), expiresAt := now + SESSION_TTL)];
      }
    }

    /** `revokeSession`: from now on no token of the session verifies, at any time, and none is exchanged. */
    method RevokeSession(id: string, now: nat)
      modifies this
      ensures (id in rows <==> id in old(rows)) && rows - {id} == old(rows) - {id}
      ensures id in rows ==> forall t: Token, n: nat :: !Verifies(Selected(rows[id]), t, n)
      ensures id in rows ==> forall h: Hash :: !SwapApplies(rows[id], h)
      ensures id in rows ==> forall n: nat :: !InGrace(rows[id].rotatedAt, rows[id].revokedAt, n)
      ensures id in rows ==> rows[id] == old(rows)[id].(revokedAt := Some(now))
    {
      if id in rows {
        rows := rows[id := rows[id].(revokedAt := Some(now))];
      }
    }

    /** `revokeSessionFamily` */
    method RevokeSessionFamily(id: string, now: nat)
      modifies this
      ensures rows == if id in old(rows) then old(rows)[id := FamilyRevoked(old(rows)[id], now)] else old(rows)
      ensures id in old(rows) && old(rows)[id].revokedAt.Some? ==> rows == old(rows)
      ensures id in old(rows) && old(rows)[id].revokedAt.None? ==>
                rows == old(rows)[id := old(rows)[id].(revokedAt := Some(now))]
    {
      if id in rows && rows[id].revokedAt.None? {
        rows := rows[id := rows[id].(revokedAt := Some(now))];
      }
    }

    /**
     The refresh route without interference. A token is exchanged exactly when it is the one stored for
     a live session; a token that is not makes the session unusable unless the last rotation is recent.
     */
    method Refresh(id: string, token: Token, issued: Token, now: nat) returns (outcome: Outcome)
      modifies this
      ensures outcome == NewToken(issued)
          <==> id in old(rows) && Verifies(Selected(old(rows)[id]), token, now)
      ensures outcome == RotatedElsewhere
          <==> id in old(rows) && !Verifies(Selected(old(rows)[id]), token, now)
               && InGrace(old(rows)[id].rotatedAt, old(rows)[id].revokedAt, now)
      ensures outcome.NewToken? ==>
                outcome.token == issued &&
                rows == old(rows)[id := Row(Hash(issued), Some(now), None, now + 604_800_000)]
      ensures outcome == RotatedElsewhere ==> rows == old(rows)
      ensures rows - {id} == old(rows) - {id}
      ensures outcome == Unauthenticated ==>
                rows == if id in old(rows) then old(rows)[id := FamilyRevoked(old(rows)[id], now)] else old(rows)
    {
      var session := VerifyRefreshToken(id, token, now);
      if session == None {
        if id in rows && InGrace(rows[id].rotatedAt, rows[id].revokedAt, now) {
          return RotatedElsewhere;
        }
        RevokeSessionFamily(id, now);
        return Unauthenticated;
      }
      var done := RotateRefreshToken(id, session.value.hash, issued, now);
      return if done then NewToken(issued) else RotatedElsewhere;
    }

    /**
     A session from sign-in to sign-out: the token is exchanged exactly while the session lives, showing
     it again is let off for ten seconds and otherwise ends the session, and after signing out
     neither token works.
     */
    method SignInToSignOut(id: string, first: Token, second: Token, t0: nat, t1: nat, t2: nat, t3: nat)
      returns (refreshed: Outcome, again: Outcome, late: Outcome)
      requires first != second && t0 <= t1 <= t2 <= t3
      modifies this
      ensures refreshed == if t1 <= t0 + 604_800_000 then NewToken(second) else Unauthenticated
      ensures again == if t1 <= t0 + 604_800_000 && t2 - t1 < 10_000 then RotatedElsewhere else Unauthenticated
      ensures late == Unauthenticated && rows - {id} == old(rows) - {id}
    {
      CreateSession(id, first, t0);
      refreshed := Refresh(id, first, second, t1);
      again := Refresh(id, first, second, t2);
      RevokeSession(id, t3);
      late := Refresh(id, second, first, t3);
    }
  }

  // ----- Interleaved requests -------------------------------------------------------------------

  /** Where a request stands between two of its awaits. */
  datatype Phase =
    | Read(token: Token, selected: Option<Row>)
    | Verified(token: Token)
    | Prepared(token: Token, issued: Token, at: nat)
    | Failed
    | Recheck(rotatedAt: Option<nat>, revokedAt: Option<nat>)
    | Revoking
    | Refreshed(from: Token, to: Token)
    | Conflict
    | Rejected

  /** `chain` lists every token the row has held; `seen` every token anybody has named. */
  datatype State = State(now: nat, row: Row, requests: map<nat, Phase>, chain: seq<Token>, seen: set<Token>)

  datatype Event =
    | Tick(later: nat)
    | Logout
    | Begin(r: nat, token: Token)
    | Check(r: nat)
    | Prepare(r: nat, issued: Token)
    | Swap(r: nat)
    | Reread(r: nat)
    | Decide(r: nat)
    | Revoke(r: nat)

  predicate Enabled(s: State, e: Event) {
    match e
    case Tick(later) => s.now <= later
    case Logout => true
    case Begin(r, token) => r !in s.requests
    case Check(r) => r in s.requests && s.requests[r].Read?
    case Prepare(r, issued) => r in s.requests && s.requests[r].Verified? && issued !in s.seen
    case Swap(r) => r in s.requests && s.requests[r].Prepared?
    case Reread(r) => r in s.requests && s.requests[r].Failed?
    case Decide(r) => r in s.requests && s.requests[r].Recheck?
    case Revoke(r) => r in s.requests && s.requests[r].Revoking?
  }

  function To(s: State, r: nat, p: Phase): State {
    s.(requests := s.requests[r := p])
  }

  function Apply(s: State, e: Event): State
    requires Enabled(s, e)
  {
    match e
    case Tick(later) => s.(now := later)
    case Logout => s.(row := Revoked(s.row, s.now))
    case Begin(r, token) => To(s, r, Read(token, Selected(s.row))).(seen := s.seen + {token})
    case Check(r) =>
      var p := s.requests[r];
      To(s, r, if Verifies(p.selected, p.token, s.now) then Verified(p.token) else Failed)
    case Prepare(r, issued) => To(s, r, Prepared(s.requests[r].token, issued, s.now)).(seen := s.seen + {issued})
    case Swap(r) =>
      var p := s.requests[r];
      if SwapApplies(s.row, Hash(p.token)) then
        To(s, r, Refreshed(p.token, p.issued)).(row := Rotated(s.row, p.issued, p.at), chain := s.chain + [p.issued])
      else
        To(s, r, Conflict)
    case Reread(r) => To(s, r, Recheck(s.row.rotatedAt, s.row.revokedAt))
    case Decide(r) =>
      var p := s.requests[r];
      To(s, r, if InGrace(p.rotatedAt, p.revokedAt, s.now) then Conflict else Revoking)
    case Revoke(r) => To(s, r, Rejected).(row := FamilyRevoked(s.row, s.now))
  }

  /** A session right after `createSession`. */
  predicate Init(s: State) {
    && |s.chain| == 1
    && s.row == Row(Hash(s.chain[0]), None, None, s.now + SESSION_TTL)
    && s.requests == map[]
    && s.chain[0] in s.seen
  }

  ghost predicate IsRun(run: seq<State>, events: seq<Event>) {
    && |run| == |events| + 1
    && Init(run[0])
    && forall i | 0 <= i < |events| :: Enabled(run[i], events[i]) && run[i + 1] == Apply(run[i], events[i])
  }

  // ----- The invariant ----------------------------------------------------------------------------

  function Newest(s: State): Token
    requires s.chain != []
  {
    s.chain[|s.chain| - 1]
  }

  ghost predicate ChainInv(s: State) {
    && s.chain != []
    && s.row.hash == Hash(Newest(s))
    && (forall i, j | 0 <= i < j < |s.chain| :: s.chain[i] != s.chain[j])
    && (forall t <- s.chain :: t in s.seen)
  }

  /** `from` and `to` are neighbours in the chain. */
  ghost predicate Linked(chain: seq<Token>, from: Token, to: Token) {
    exists i :: 0 <= i < |chain| - 1 && chain[i] == from && chain[i + 1] == to
  }

  ghost predicate PhaseInv(s: State, p: Phase)
    requires s.chain != []
  {
    match p
    case Read(_, selected) => selected.Some? ==> selected.value.hash.of in s.chain
    case Verified(token) => token in s.chain
    case Prepared(token, issued, at) => token in s.chain && issued in s.seen && issued !in s.chain
    case Refreshed(from, to) => Linked(s.chain, from, to)
    case Rejected => s.row.revokedAt.Some?
    case _ => true
  }

  ghost predicate RequestsInv(s: State)
    requires s.chain != []
  {
    && (forall r <- s.requests :: PhaseInv(s, s.requests[r]))
    && (forall q, r | q in s.requests && r in s.requests && q != r
          && s.requests[q].Prepared? && s.requests[r].Prepared? :: s.requests[q].issued != s.requests[r].issued)
    && (forall q, r | q in s.requests && r in s.requests && q != r
          && s.requests[q].Refreshed? && s.requests[r].Refreshed? :: s.requests[q].to != s.requests[r].to)
  }

  /** Link `i` of the chain is some request's doing. */
  ghost predicate Made(s: State, i: nat)
    requires i + 1 < |s.chain|
  {
    exists r :: r in s.requests && s.requests[r] == Refreshed(s.chain[i], s.chain[i + 1])
  }

  ghost predicate LinksInv(s: State) {
    forall i: nat | i + 1 < |s.chain| :: Made(s, i)
  }

  ghost predicate Inv(s: State) {
    ChainInv(s) && RequestsInv(s) && LinksInv(s)
  }

  lemma InitInv(s: State)
    requires Init(s)
    ensures Inv(s)
  {
  }

  lemma LinkedExtends(chain: seq<Token>, t: Token, from: Token, to: Token)
    requires Linked(chain, from, to)
    ensures Linked(chain + [t], from, to)
  {
    var i :| 0 <= i < |chain| - 1 && chain[i] == from && chain[i + 1] == to;
    assert (chain + [t])[i] == from && (chain + [t])[i + 1] == to;
  }

  lemma SwapKeepsLinks(s: State, r: nat)
    requires Inv(s) && Enabled(s, Swap(r)) && SwapApplies(s.row, Hash(s.requests[r].token))
    ensures LinksInv(Apply(s, Swap(r)))
  {
    var s' := Apply(s, Swap(r));
    forall i: nat | i + 1 < |s'.chain|
      ensures Made(s', i)
    {
      if i == |s.chain| - 1 {
        assert s'.requests[r] == Refreshed(s'.chain[i], s'.chain[i + 1]);
      } else {
        assert Made(s, i);
        var q :| q in s.requests && s.requests[q] == Refreshed(s.chain[i], s.chain[i + 1]);
        assert s'.requests[q] == Refreshed(s'.chain[i], s'.chain[i + 1]);
      }
    }
  }

  lemma SwapKeepsRequests(s: State, r: nat)
    requires Inv(s) && Enabled(s, Swap(r)) && SwapApplies(s.row, Hash(s.requests[r].token))
    ensures ChainInv(Apply(s, Swap(r))) && RequestsInv(Apply(s, Swap(r)))
  {
    var s' := Apply(s, Swap(r));
    var p := s.requests[r];
    assert PhaseInv(s, p);
    assert s'.chain[|s.chain| - 1] == p.token && s'.chain[|s.chain|] == p.issued;
    forall q | q in s'.requests
      ensures PhaseInv(s', s'.requests[q])
      ensures q != r && s.requests[q].Refreshed? ==> s.requests[q].to in s.chain
    {
      if q != r {
        assert PhaseInv(s, s.requests[q]);
        if s.requests[q].Refreshed? {
          LinkedExtends(s.chain, p.issued, s.requests[q].from, s.requests[q].to);
        }
      }
    }
  }

  /** Changes of one request that leave the chain and the finished requests alone. */
  lemma MoveKeepsInv(s: State, s': State, r: nat)
    requires Inv(s) && s'.chain == s.chain && s.seen <= s'.seen && s'.row.hash == s.row.hash
    requires s.row.revokedAt.Some? ==> s'.row.revokedAt.Some?
    requires r in s'.requests && s'.requests == s.requests[r := s'.requests[r]]
    requires r in s.requests ==> !s.requests[r].Refreshed?
    requires !s'.requests[r].Refreshed? && PhaseInv(s', s'.requests[r])
    requires s'.requests[r].Prepared? ==> s'.requests[r].issued !in s.seen
    ensures Inv(s')
  {
    forall q | q in s'.requests
      ensures PhaseInv(s', s'.requests[q])
    {
      if q != r {
        assert PhaseInv(s, s.requests[q]);
      }
    }
    forall i: nat | i + 1 < |s'.chain|
      ensures Made(s', i)
    {
      assert Made(s, i);
      var q :| q in s.requests && s.requests[q] == Refreshed(s.chain[i], s.chain[i + 1]);
      assert s'.requests[q] == s.requests[q];
    }
  }

  lemma StepKeepsInv(s: State, e: Event)
    requires Inv(s) && Enabled(s, e)
    ensures Inv(Apply(s, e))
  {
    var s' := Apply(s, e);
    if e.Swap? && SwapApplies(s.row, Hash(s.requests[e.r].token)) {
      SwapKeepsLinks(s, e.r);
      SwapKeepsRequests(s, e.r);
    } else if e.Tick? || e.Logout? {
      assert forall q <- s.requests :: PhaseInv(s, s.requests[q]) ==> PhaseInv(s', s.requests[q]);
      assert forall i: nat | i + 1 < |s.chain| :: Made(s, i) ==> Made(s', i);
    } else {
      if e.r in s.requests {
        assert PhaseInv(s, s.requests[e.r]);
      }
      MoveKeepsInv(s, s', e.r);
    }
  }

  lemma {:induction false} RunKeepsInv(run: seq<State>, events: seq<Event>, i: nat)
    requires IsRun(run, events) && i < |run|
    ensures Inv(run[i])
  {
    if i == 0 {
      InitInv(run[0]);
    } else {
      RunKeepsInv(run, events, i - 1);
      StepKeepsInv(run[i - 1], events[i - 1]);
    }
  }

  // ----- What every run keeps ---------------------------------------------------------------------

  /** No hash is exchanged twice: two different requests never get a new token for the same old one. */
  lemma AtMostOneRotationPerHash(run: seq<State>, events: seq<Event>, i: nat, q: nat, r: nat)
    requires IsRun(run, events) && i < |run|
    requires q in run[i].requests && r in run[i].requests && q != r
    requires run[i].requests[q].Refreshed? && run[i].requests[r].Refreshed?
    ensures run[i].requests[q].from != run[i].requests[r].from
  {
    RunKeepsInv(run, events, i);
    var s := run[i];
    assert PhaseInv(s, s.requests[q]) && PhaseInv(s, s.requests[r]);
  }

  /** The tokens a session has had form one line, and each link is the work of exactly one request. */
  lemma RotationsFormAChain(run: seq<State>, events: seq<Event>, i: nat, k: nat)
    requires IsRun(run, events) && i < |run| && k + 1 < |run[i].chain|
    ensures exists r :: r in run[i].requests
              && run[i].requests[r] == Refreshed(run[i].chain[k], run[i].chain[k + 1])
              && forall q | q in run[i].requests && run[i].requests[q].Refreshed?
                   && run[i].requests[q].from == run[i].chain[k] :: q == r
  {
    RunKeepsInv(run, events, i);
    var s := run[i];
    assert Made(s, k);
    var r :| r in s.requests && s.requests[r] == Refreshed(s.chain[k], s.chain[k + 1]);
    forall q | q in s.requests && s.requests[q].Refreshed? && s.requests[q].from == s.chain[k]
      ensures q == r
    {
      if q != r {
        AtMostOneRotationPerHash(run, events, i, q, r);
      }
    }
  }

  /** What a request that began when the row was `row` may have become. */
  predicate Descends(p: Phase, row: Row) {
    match p
    case Read(_, selected) => selected == Selected(row)
    case Verified(token) => row.hash == Hash(token) && row.revokedAt.None?
    case Prepared(token, _, _) => row.hash == Hash(token) && row.revokedAt.None?
    case Refreshed(from, _) => row.hash == Hash(from) && row.revokedAt.None?
    case _ => true
  }

  predicate Accepted(s: State, r: nat) {
    r in s.requests && (s.requests[r].Verified? || s.requests[r].Prepared? || s.requests[r].Refreshed?)
  }

  lemma StepDescends(s: State, e: Event, r: nat, row: Row)
    requires Enabled(s, e) && r in s.requests && Descends(s.requests[r], row)
    ensures r in Apply(s, e).requests && Descends(Apply(s, e).requests[r], row)
  {
  }

  lemma {:induction false} RunDescends(run: seq<State>, events: seq<Event>, i: nat, j: nat, r: nat)
    requires IsRun(run, events) && i < j < |run|
    requires events[i].Begin? && events[i].r == r
    ensures r in run[j].requests && Descends(run[j].requests[r], run[i].row)
    decreases j
  {
    assert run[i + 1] == Apply(run[i], events[i]);
    if i + 1 < j {
      RunDescends(run, events, i, j - 1, r);
      StepDescends(run[j - 1], events[j - 1], r, run[i].row);
    }
  }

  /** The token a live request showed. */
  function Presented(p: Phase): Option<Token> {
    match p
    case Read(token, _) => Some(token)
    case Verified(token) => Some(token)
    case Prepared(token, _, _) => Some(token)
    case Refreshed(from, _) => Some(from)
    case _ => None
  }

  /** Only the newest token of a live session is ever accepted, whatever else goes on meanwhile. */
  lemma OnlyNewestVerifies(run: seq<State>, events: seq<Event>, i: nat, j: nat)
    requires IsRun(run, events) && i < j < |run| && events[i].Begin?
    requires Accepted(run[j], events[i].r)
    ensures run[i].chain != [] && Presented(run[j].requests[events[i].r]) == Some(Newest(run[i]))
    ensures run[i].row.revokedAt.None?
  {
    RunKeepsInv(run, events, i);
    RunDescends(run, events, i, j, events[i].r);
  }

  lemma {:induction false} RevokedStays(run: seq<State>, events: seq<Event>, i: nat, j: nat)
    requires IsRun(run, events) && i <= j < |run| && run[i].row.revokedAt.Some?
    ensures run[j].row.revokedAt.Some? && run[j].chain == run[i].chain && run[j].row.hash == run[i].row.hash
    decreases j
  {
    if i < j {
      RevokedStays(run, events, i, j - 1);
      assert run[j] == Apply(run[j - 1], events[j - 1]);
    }
  }

  /** After revocation nothing verifies and nothing rotates. */
  lemma NothingAfterRevocation(run: seq<State>, events: seq<Event>, i: nat, j: nat)
    requires IsRun(run, events) && i <= j < |run| && run[i].row.revokedAt.Some?
    ensures run[j].chain == run[i].chain
    ensures forall k | i <= k < j && events[k].Begin? :: !Accepted(run[j], events[k].r)
  {
    RevokedStays(run, events, i, j);
    forall k | i <= k < j && events[k].Begin?
      ensures !Accepted(run[j], events[k].r)
    {
      RevokedStays(run, events, i, k);
      RunDescends(run, events, k, j, events[k].r);
    }
  }

  /** A rejected request has taken the whole session with it, for good. */
  lemma RejectionRevokes(run: seq<State>, events: seq<Event>, i: nat, j: nat, r: nat)
    requires IsRun(run, events) && i <= j < |run|
    requires r in run[i].requests && run[i].requests[r].Rejected?
    ensures run[j].row.revokedAt.Some? && run[j].chain == run[i].chain
  {
    RunKeepsInv(run, events, i);
    assert PhaseInv(run[i], run[i].requests[r]);
    RevokedStays(run, events, i, j);
  }

  // ----- Lost races and replays ---------------------------------------------------------------------

  lemma {:induction false} ChainGrows(run: seq<State>, events: seq<Event>, i: nat, j: nat)
    requires IsRun(run, events) && i <= j < |run|
    ensures run[i].chain <= run[j].chain
    decreases j
  {
    if i < j {
      ChainGrows(run, events, i, j - 1);
      assert run[j] == Apply(run[j - 1], events[j - 1]);
    }
  }

  /**
   The compare-and-swap of a request succeeds exactly when, since the request began, no other request
   has rotated the token and nobody has revoked the session.
   */
  lemma SwapSucceedsIff(run: seq<State>, events: seq<Event>, i: nat, j: nat)
    requires IsRun(run, events) && i < j < |events|
    requires events[i].Begin? && events[j].Swap? && events[j].r == events[i].r
    ensures events[j].r in run[j + 1].requests
    ensures run[j + 1].requests[events[j].r].Refreshed?
        <==> run[j].chain == run[i].chain && run[j].row.revokedAt.None?
  {
    RunKeepsInv(run, events, i);
    RunKeepsInv(run, events, j);
    RunDescends(run, events, i, j, events[i].r);
    ChainGrows(run, events, i, j);
    assert run[j + 1] == Apply(run[j], events[j]);
    var n := |run[i].chain|;
    assert run[j].chain[n - 1] == Newest(run[i]) == run[j].requests[events[j].r].token;
    if run[j].row.hash == Hash(Newest(run[i])) {
      assert |run[j].chain| == n;
    }
  }

  /** Left alone, a request with the newest token of a live session is always served. */
  lemma UndisturbedRequestIsServed(run: seq<State>, events: seq<Event>, r: nat, issued: Token)
    requires IsRun(run, events)
    requires var s := run[|events|];
             && r !in s.requests && s.row.revokedAt.None? && s.now <= s.row.expiresAt
             && issued !in s.seen
    ensures var s := run[|events|];
            && s.chain != []
            && Enabled(s, Begin(r, Newest(s)))
            && var s1 := Apply(s, Begin(r, Newest(s)));
            && Enabled(s1, Check(r))
            && var s2 := Apply(s1, Check(r));
            && Enabled(s2, Prepare(r, issued))
            && var s3 := Apply(s2, Prepare(r, issued));
            && Enabled(s3, Swap(r))
            && Apply(s3, Swap(r)).requests[r] == Refreshed(Newest(s), issued)
            && Newest(Apply(s3, Swap(r))) == issued
  {
    RunKeepsInv(run, events, |events|);
  }

  /** The rotation date is that of a moment when the rotating request had already read the row. */
  ghost predicate TimeInv(s: State)
    requires s.chain != []
  {
    && (s.row.rotatedAt.Some? ==> s.row.expiresAt == s.row.rotatedAt.value + SESSION_TTL)
    && s.row.expiresAt <= s.now + SESSION_TTL
    && (forall r | r in s.requests && s.requests[r].Prepared? ::
          s.requests[r].at <= s.now
          && (s.requests[r].token == Newest(s) ==> s.row.expiresAt <= s.requests[r].at + SESSION_TTL))
  }

  lemma StepKeepsTime(s: State, e: Event)
    requires Inv(s) && TimeInv(s) && Enabled(s, e)
    ensures Apply(s, e).chain != [] && TimeInv(Apply(s, e))
    ensures s.now <= Apply(s, e).now
    ensures s.row.expiresAt <= Apply(s, e).row.expiresAt
    ensures s.row.rotatedAt.Some? ==> Apply(s, e).row.rotatedAt.Some?
  {
    if e.Swap? {
      assert forall q <- s.requests :: PhaseInv(s, s.requests[q]);
    }
  }

  lemma {:induction false} RunKeepsTime(run: seq<State>, events: seq<Event>, i: nat)
    requires IsRun(run, events) && i < |run|
    ensures run[i].chain != [] && TimeInv(run[i])
  {
    RunKeepsInv(run, events, i);
    if i > 0 {
      RunKeepsTime(run, events, i - 1);
      RunKeepsInv(run, events, i - 1);
      StepKeepsTime(run[i - 1], events[i - 1]);
    }
  }

  predicate NotAfter(t: nat, rotatedAt: Option<nat>) {
    rotatedAt.Some? && t <= rotatedAt.value
  }

  predicate NoEarlier(s: State, s': State) {
    && s.now <= s'.now
    && s.row.expiresAt <= s'.row.expiresAt
    && (s.row.rotatedAt.Some? ==> NotAfter(s.row.rotatedAt.value, s'.row.rotatedAt))
  }

  lemma StepNoEarlier(run: seq<State>, events: seq<Event>, j: nat)
    requires IsRun(run, events) && j < |events|
    ensures NoEarlier(run[j], run[j + 1])
  {
    RunKeepsInv(run, events, j);
    RunKeepsTime(run, events, j);
    RunKeepsTime(run, events, j + 1);
    StepKeepsTime(run[j], events[j]);
  }

  /** No interleaving moves the rotation date back or shortens the life of a session. */
  lemma {:induction false} LifeNeverShrinks(run: seq<State>, events: seq<Event>, i: nat, j: nat)
    requires IsRun(run, events) && i <= j < |run|
    ensures NoEarlier(run[i], run[j])
    decreases j
  {
    if i < j {
      LifeNeverShrinks(run, events, i, j - 1);
      StepNoEarlier(run, events, j - 1);
    }
  }

  /** What the replay of a spent token may have become, and why. */
  ghost predicate ReplayPhase(run: seq<State>, events: seq<Event>, j: nat, r: nat)
    requires IsRun(run, events) && j < |run|
  {
    && r in run[j].requests
    && match run[j].requests[r] {
         case Read(token, selected) => selected.Some? ==> !Compare(token, selected.value.hash)
         case Failed => true
         case Recheck(rotatedAt, _) => rotatedAt.Some? ==> NotAfter(rotatedAt.value, run[j].row.rotatedAt)
         case Revoking => true
         case Rejected => true
         case Conflict => exists k: nat :: k < j && DecidedInGrace(run, events, k, r)
         case _ => false
       }
  }

  /** At event `k` the request was let off because of a rotation less than ten seconds old. */
  ghost predicate DecidedInGrace(run: seq<State>, events: seq<Event>, k: nat, r: nat)
    requires |run| == |events| + 1
  {
    && k < |events| && events[k] == Decide(r)
    && run[k].row.rotatedAt.Some? && run[k].now - run[k].row.rotatedAt.value < GRACE
  }

  lemma StepOfReplay(run: seq<State>, events: seq<Event>, j: nat, r: nat)
    requires IsRun(run, events) && j < |events| && ReplayPhase(run, events, j, r)
    ensures ReplayPhase(run, events, j + 1, r)
  {
    var s, s' := run[j], run[j + 1];
    assert s' == Apply(s, events[j]);
    StepNoEarlier(run, events, j);
    if events[j] == Decide(r) && s'.requests[r] == Conflict {
      assert DecidedInGrace(run, events, j, r);
    } else if s.requests[r] == Conflict {
      var k: nat :| k < j && DecidedInGrace(run, events, k, r);
      assert k < j + 1 && DecidedInGrace(run, events, k, r);
    }
  }

  /**
   Showing a token that is not the newest never yields a new one. Such a request is either let off as a
   lost race, and then a rotation less than ten seconds old stood in the row, or it ends with the
   session revoked.
   */
  lemma {:induction false} SpentTokenNeverAccepted(run: seq<State>, events: seq<Event>, i: nat, j: nat)
    requires IsRun(run, events) && i < j < |run| && events[i].Begin?
    requires run[i].chain == [] || events[i].token != Newest(run[i])
    ensures ReplayPhase(run, events, j, events[i].r)
    decreases j
  {
    assert run[i + 1] == Apply(run[i], events[i]);
    RunKeepsInv(run, events, i);
    if i + 1 < j {
      SpentTokenNeverAccepted(run, events, i, j - 1);
      StepOfReplay(run, events, j - 1, events[i].r);
    }
  }
}

/** Lists of routes as Caddy searches them: the first one that matches a host answers. */
module RouteList {
  import opened Sequences
  import opened Wrappers

  datatype Matcher = Anything | Hosts(hosts: seq<string>)

  /** The `handler` field of the objects that this code builds; others have any other name. */
  datatype Name =
    | RateLimit | StaticResponse | Authentication | Rewrite | FileServer | Encode | Cache | ImageFilter | Headers
    | Foreign(name: string)

  /** A handler object. */
  datatype Handler =
    | ReverseProxy(dials: seq<string>)
    | Subroute(matching: seq<string>, inner: seq<Handler>)
    | Other(name: Name, body: string)

  /** Routes of other origin may have no id. */
  datatype Route = Route(id: Option<string>, matcher: Matcher, handle: seq<Handler>)

  predicate Matches(r: Route, host: string) {
    r.matcher.Anything? || host in r.matcher.hosts
  }

  function Lookup(routes: seq<Route>, host: string): Option<Route> {
    if routes == [] then None
    else if Matches(routes[0], host) then Some(routes[0])
    else Lookup(routes[1..], host)
  }

  predicate HasId(r: Route, ids: set<string>) {
    r.id.Some? && r.id.value in ids
  }

  /** The routes whose id is not in `ids`, in order. */
  function Without(routes: seq<Route>, ids: set<string>): seq<Route> {
    if routes == [] then []
    else if HasId(routes[0], ids) then Without(routes[1..], ids)
    else [routes[0]] + Without(routes[1..], ids)
  }

  predicate UniqueIds(routes: seq<Route>) {
    forall i, j | 0 <= i < j < |routes| && routes[i].id.Some? :: routes[i].id != routes[j].id
  }

  lemma {:induction false} WithoutConcat(a: seq<Route>, b: seq<Route>, ids: set<string>)
    ensures Without(a + b, ids) == Without(a, ids) + Without(b, ids)
  {
    if a == [] {
      assert a + b == b;
    } else {
      WithoutConcat(a[1..], b, ids);
      assert (a + b)[1..] == a[1..] + b;
    }
  }

  function WithNoneOf(ids: set<string>): Route -> bool {
    (r: Route) => r.id.None? || r.id.value !in ids
  }

  lemma WithoutSnoc(routes: seq<Route>, r: Route, ids: set<string>)
    ensures Without(routes + [r], ids) == Without(routes, ids) + if WithNoneOf(ids)(r) then [r] else []
  {
    WithoutConcat(routes, [r], ids);
    assert Without([r], ids) == if WithNoneOf(ids)(r) then [r] else [];
  }

  /** Exactly the routes without one of these ids stay, those without any id among them, in order. */
  lemma {:induction false} WithoutPicks(routes: seq<Route>, ids: set<string>) returns (at: seq<nat>)
    ensures Picks(routes, WithNoneOf(ids), Without(routes, ids), at)
  {
    if routes == [] {
      at := [];
    } else {
      var n := |routes| - 1;
      at := WithoutPicks(routes[..n], ids);
      assert routes == routes[..n] + [routes[n]];
      WithoutSnoc(routes[..n], routes[n], ids);
      PicksSnoc(routes[..n], WithNoneOf(ids), Without(routes[..n], ids), at, routes[n]);
      at := if WithNoneOf(ids)(routes[n]) then at + [n] else at;
    }
  }

  lemma {:induction false} WithoutTwice(routes: seq<Route>, p: set<string>, q: set<string>)
    ensures Without(Without(routes, p), q) == Without(routes, p + q)
  {
    if routes != [] {
      WithoutTwice(routes[1..], p, q);
      assert ([routes[0]] + Without(routes[1..], p))[1..] == Without(routes[1..], p);
    }
  }

  lemma {:induction false} WithoutNothing(routes: seq<Route>)
    ensures Without(routes, {}) == routes
  {
    if routes != [] {
      WithoutNothing(routes[1..]);
    }
  }

  lemma {:induction false} WithoutMember(routes: seq<Route>, ids: set<string>, r: Route)
    ensures r in Without(routes, ids) <==> r in routes && !HasId(r, ids)
  {
    if routes != [] {
      WithoutMember(routes[1..], ids, r);
      assert routes == [routes[0]] + routes[1..];
    }
  }

  lemma {:induction false} WithoutUnique(routes: seq<Route>, ids: set<string>)
    requires UniqueIds(routes)
    ensures UniqueIds(Without(routes, ids))
  {
    if routes != [] {
      WithoutUnique(routes[1..], ids);
      if !HasId(routes[0], ids) {
        UniqueCons(routes[0], routes[1..], ids);
      }
    }
  }

  lemma UniqueCons(r: Route, rest: seq<Route>, ids: set<string>)
    requires UniqueIds(Without(rest, ids))
    requires r.id.Some? ==> r.id.value in ids || forall s <- rest :: s.id != r.id
    ensures UniqueIds([r] + Without(rest, ids))
  {
    forall s | s in Without(rest, ids)
      ensures r.id.Some? ==> s.id != r.id
    {
      WithoutMember(rest, ids, s);
    }
  }

  // ----- Runs of upserts and removals -------------------------------------------------------------

  datatype Op = Upsert(id: string, matcher: Matcher, handle: seq<Handler>) | Remove(id: string)

  function RouteOf(op: Op): Route
    requires op.Upsert?
  {
    Route(Some(op.id), op.matcher, op.handle)
  }

  /** `putRouteFirst` and `removeRoute` on the list. */
  function Apply(routes: seq<Route>, op: Op): seq<Route> {
    (if op.Upsert? then [RouteOf(op)] else []) + Without(routes, {op.id})
  }

  function Run(routes: seq<Route>, ops: seq<Op>): seq<Route> {
    if ops == [] then routes else Apply(Run(routes, ops[..|ops| - 1]), ops[|ops| - 1])
  }

  function Ids(ops: seq<Op>): set<string> {
    set op <- ops :: op.id
  }

  lemma {:induction false} UniqueIdsKept(routes: seq<Route>, ops: seq<Op>)
    requires UniqueIds(routes)
    ensures UniqueIds(Run(routes, ops))
  {
    if ops != [] {
      var op, before := ops[|ops| - 1], Run(routes, ops[..|ops| - 1]);
      UniqueIdsKept(routes, ops[..|ops| - 1]);
      WithoutUnique(before, {op.id});
      if op.Upsert? {
        UniqueCons(RouteOf(op), before, {op.id});
      } else {
        assert [] + Without(before, {op.id}) == Without(before, {op.id});
      }
    }
  }

  /** The route an operation leaves behind, if later operations have not met its id. */
  function Leaves(op: Op, met: set<string>): seq<Route> {
    if op.Upsert? && op.id !in met then [RouteOf(op)] else []
  }

  /** The surviving upserts, latest first: `met` are the ids of later operations. */
  function Recent(ops: seq<Op>, met: set<string>): seq<Route> {
    if ops == [] then [] else
    var op := ops[|ops| - 1];
    Leaves(op, met) + Recent(ops[..|ops| - 1], met + {op.id})
  }

  lemma IdsSnoc(ops: seq<Op>)
    requires ops != []
    ensures Ids(ops) == Ids(ops[..|ops| - 1]) + {ops[|ops| - 1].id}
  {
    assert ops == ops[..|ops| - 1] + [ops[|ops| - 1]];
  }

  lemma WithoutApply(was: seq<Route>, op: Op, met: set<string>)
    ensures Without(Apply(was, op), met) == Leaves(op, met) + Without(was, met + {op.id})
  {
    var first: seq<Route> := if op.Upsert? then [RouteOf(op)] else [];
    WithoutConcat(first, Without(was, {op.id}), met);
    WithoutTwice(was, {op.id}, met);
    assert {op.id} + met == met + {op.id};
    assert Without(first, met) == Leaves(op, met);
  }

  /** The list refines a map ordered by recency, in front of the routes nobody has touched. */
  lemma {:induction false} RunIsRecent(routes: seq<Route>, ops: seq<Op>, met: set<string>)
    ensures Without(Run(routes, ops), met) == Recent(ops, met) + Without(routes, met + Ids(ops))
  {
    if ops == [] {
      assert met + Ids(ops) == met;
    } else {
      var op, before := ops[|ops| - 1], ops[..|ops| - 1];
      calc {
        Without(Run(routes, ops), met);
        Without(Apply(Run(routes, before), op), met);
        { WithoutApply(Run(routes, before), op, met); }
        Leaves(op, met) + Without(Run(routes, before), met + {op.id});
        { RunIsRecent(routes, before, met + {op.id}); }
        Leaves(op, met) + (Recent(before, met + {op.id}) + Without(routes, met + {op.id} + Ids(before)));
        { IdsSnoc(ops); assert met + {op.id} + Ids(before) == met + Ids(ops); }
        Leaves(op, met) + (Recent(before, met + {op.id}) + Without(routes, met + Ids(ops)));
        { ConcatAssociates(Leaves(op, met), Recent(before, met + {op.id}), Without(routes, met + Ids(ops))); }
        Recent(ops, met) + Without(routes, met + Ids(ops));
      }
    }
  }

  /** The same for the whole list. */
  lemma ListIsRecencyOrdered(routes: seq<Route>, ops: seq<Op>)
    ensures Run(routes, ops) == Recent(ops, {}) + Without(routes, Ids(ops))
  {
    WithoutNothing(Run(routes, ops));
    RunIsRecent(routes, ops, {});
    assert {} + Ids(ops) == Ids(ops);
  }

  lemma {:induction false} AllMet(ops: seq<Op>, met: set<string>)
    requires Ids(ops) <= met
    ensures Recent(ops, met) == []
  {
    if ops != [] {
      IdsSnoc(ops);
      AllMet(ops[..|ops| - 1], met + {ops[|ops| - 1].id});
    }
  }

  /** Routes whose ids no operation names stay, all of them and in their order. */
  lemma ForeignRoutesKeepOrder(routes: seq<Route>, ops: seq<Op>, ids: set<string>)
    requires Ids(ops) <= ids
    ensures Without(Run(routes, ops), ids) == Without(routes, ids)
  {
    RunIsRecent(routes, ops, ids);
    AllMet(ops, ids);
    assert ids + Ids(ops) == ids;
  }

  // ----- Lookup -----------------------------------------------------------------------------------

  /** Operation `i` is an upsert, and no later operation names its id. */
  predicate Survives(ops: seq<Op>, i: nat) {
    i < |ops| && ops[i].Upsert? && forall j | i < j < |ops| :: ops[j].id != ops[i].id
  }

  predicate Answers(ops: seq<Op>, i: nat, host: string) {
    Survives(ops, i) && Matches(RouteOf(ops[i]), host)
  }

  lemma {:induction false} LookupConcat(a: seq<Route>, b: seq<Route>, host: string)
    ensures Lookup(a + b, host) == if Lookup(a, host).Some? then Lookup(a, host) else Lookup(b, host)
  {
    if a == [] {
      assert a + b == b;
    } else {
      LookupConcat(a[1..], b, host);
      assert (a + b)[1..] == a[1..] + b;
    }
  }

  /** As `Answers`, for operations followed by others that name the ids `met`. */
  predicate AnswersBefore(ops: seq<Op>, met: set<string>, i: nat, host: string) {
    Answers(ops, i, host) && ops[i].id !in met
  }

  lemma InitAnswers(ops: seq<Op>, met: set<string>, i: nat, host: string)
    requires ops != [] && i < |ops| - 1
    ensures AnswersBefore(ops[..|ops| - 1], met + {ops[|ops| - 1].id}, i, host) <==> AnswersBefore(ops, met, i, host)
  {
    var before := ops[..|ops| - 1];
    assert forall j | 0 <= j < |before| :: before[j] == ops[j];
  }

  lemma LastAnswers(ops: seq<Op>, met: set<string>, host: string)
    requires ops != []
    ensures var op := ops[|ops| - 1];
            AnswersBefore(ops, met, |ops| - 1, host) <==>
              op.Upsert? && op.id !in met && Matches(RouteOf(op), host)
  {
  }

  /** The last operation that answers the host, or -1. */
  function LatestIndex(ops: seq<Op>, met: set<string>, host: string): (i: int)
    ensures -1 <= i < |ops|
  {
    if ops == [] then -1 else
    var last := |ops| - 1;
    if AnswersBefore(ops, met, last, host) then last
    else LatestIndex(ops[..last], met + {ops[last].id}, host)
  }

  lemma {:induction false} LatestIndexIsLatest(ops: seq<Op>, met: set<string>, host: string)
    ensures var i := LatestIndex(ops, met, host);
            && (i >= 0 ==> AnswersBefore(ops, met, i, host))
            && forall j: nat | i < j < |ops| :: !AnswersBefore(ops, met, j, host)
  {
    if ops != [] {
      var last := |ops| - 1;
      LatestIndexIsLatest(ops[..last], met + {ops[last].id}, host);
      forall j: nat | j < last
        ensures AnswersBefore(ops[..last], met + {ops[last].id}, j, host) <==> AnswersBefore(ops, met, j, host)
      {
        InitAnswers(ops, met, j, host);
      }
    }
  }

  lemma LookupLeaves(op: Op, met: set<string>, rest: seq<Route>, host: string)
    ensures Lookup(Leaves(op, met) + rest, host)
         == if op.Upsert? && op.id !in met && Matches(RouteOf(op), host) then Some(RouteOf(op)) else Lookup(rest, host)
  {
    LookupConcat(Leaves(op, met), rest, host);
  }

  lemma {:induction false} RecentLookup(ops: seq<Op>, met: set<string>, host: string)
    ensures var i := LatestIndex(ops, met, host);
            if i == -1 then Lookup(Recent(ops, met), host) == None
            else ops[i].Upsert? && Lookup(Recent(ops, met), host) == Some(RouteOf(ops[i]))
  {
    if ops != [] {
      var last := |ops| - 1;
      var met' := met + {ops[last].id};
      RecentLookup(ops[..last], met', host);
      LastAnswers(ops, met, host);
      LookupLeaves(ops[last], met, Recent(ops[..last], met'), host);
    }
  }

  /** The latest upsert that survives and matches a host answers it. */
  lemma LatestUpsertAnswers(routes: seq<Route>, ops: seq<Op>, host: string, i: nat)
    requires Answers(ops, i, host) && forall j: nat | i < j < |ops| :: !Answers(ops, j, host)
    ensures Lookup(Run(routes, ops), host) == Some(RouteOf(ops[i]))
  {
    ListIsRecencyOrdered(routes, ops);
    LookupConcat(Recent(ops, {}), Without(routes, Ids(ops)), host);
    RecentLookup(ops, {}, host);
    LatestIndexIsLatest(ops, {}, host);
    assert AnswersBefore(ops, {}, i, host);
    assert LatestIndex(ops, {}, host) == i;
  }

  /** If none does, the host is answered by the routes nobody has touched, as before. */
  lemma UntouchedRoutesAnswer(routes: seq<Route>, ops: seq<Op>, host: string)
    requires forall i: nat | i < |ops| :: !Answers(ops, i, host)
    ensures Lookup(Run(routes, ops), host) == Lookup(Without(routes, Ids(ops)), host)
  {
    ListIsRecencyOrdered(routes, ops);
    LookupConcat(Recent(ops, {}), Without(routes, Ids(ops)), host);
    RecentLookup(ops, {}, host);
    LatestIndexIsLatest(ops, {}, host);
  }

  /** Repeating a whole run of operations changes nothing. */
  lemma RunTwiceIsRunOnce(routes: seq<Route>, ops: seq<Op>)
    ensures Run(Run(routes, ops), ops) == Run(routes, ops)
  {
    var once := Run(routes, ops);
    ListIsRecencyOrdered(once, ops);
    ListIsRecencyOrdered(routes, ops);
    ForeignRoutesKeepOrder(routes, ops, Ids(ops));
  }

  /** `GET /id/...` */
  function ById(routes: seq<Route>, id: string): Option<Route> {
    if routes == [] then None
    else if routes[0].id == Some(id) then Some(routes[0])
    else ById(routes[1..], id)
  }

  lemma {:induction false} ByIdWithout(routes: seq<Route>, id: string, other: string)
    requires id != other
    ensures ById(Without(routes, {other}), id) == ById(routes, id)
  {
    if routes != [] {
      ByIdWithout(routes[1..], id, other);
    }
  }

  /** A route just put is found under its id, and answers its host. */
  lemma JustPut(routes: seq<Route>, id: string, host: string, handle: seq<Handler>)
    ensures var r := Apply(routes, Upsert(id, Hosts([host]), handle));
            var route := Route(Some(id), Hosts([host]), handle);
            ById(r, id) == Some(route) && Lookup(r, host) == Some(route)
  {
    var r := Apply(routes, Upsert(id, Hosts([host]), handle));
    assert r[0] == Route(Some(id), Hosts([host]), handle);
    assert host in [host];
  }

  lemma {:induction false} NoneById(routes: seq<Route>, id: string)
    ensures ById(Without(routes, {id}), id) == None
  {
    if routes != [] {
      NoneById(routes[1..], id);
    }
  }

  /** A surviving upsert is found under its id. */
  lemma {:induction false} ByIdFindsSurvivor(routes: seq<Route>, ops: seq<Op>, i: nat)
    requires Survives(ops, i)
    ensures ById(Run(routes, ops), ops[i].id) == Some(RouteOf(ops[i]))
  {
    var last := |ops| - 1;
    var op, before := ops[last], ops[..last];
    if i < last {
      ByIdFindsSurvivor(routes, before, i);
      ByIdWithout(Run(routes, before), ops[i].id, op.id);
      assert op.Remove? ==> [] + Without(Run(routes, before), {op.id}) == Without(Run(routes, before), {op.id});
    }
  }
}

/** The client of Caddy's admin interface, CDN handler injection and the boot reconciler. */
module Caddy {
  import opened Sequences
  import opened Wrappers
  import opened Text
  import opened RouteList

  // ----- Handlers ---------------------------------------------------------------------------------

  datatype CdnMode = Off | Internal | External

  /** `headers` is the parsed, non-empty header object. */
  datatype CdnConfig = CdnConfig(mode: CdnMode, cacheTtl: Option<int>, cachePaths: seq<string>,
                                 compression: bool, imageOptim: bool, headers: Option<string>)

  datatype Middlewares = Middlewares(rateLimit: Option<int>, ipAllowlist: seq<string>,
                                     basicAuth: Option<string>, extraHandlers: seq<Handler>)

  const NO_MIDDLEWARES := Middlewares(None, [], None, [])

  predicate IsProxy(h: Handler) {
    h.ReverseProxy?
  }

  function If(c: bool, h: Handler): seq<Handler> {
    if c then [h] else []
  }

  function Limit(m: Middlewares): Handler {
    Other(RateLimit, if m.rateLimit.Some? && m.rateLimit.value > 0 then ShowNat(m.rateLimit.value) else "")
  }

  function AllowList(m: Middlewares): Handler {
    Subroute(m.ipAllowlist, [Other(StaticResponse, "403")])
  }

  function Account(m: Middlewares): Handler {
    Other(Authentication, if m.basicAuth.Some? then m.basicAuth.value else "")
  }

  /** Rate limit, allow list, authentication. */
  function Front(m: Middlewares): seq<Handler> {
    If(m.rateLimit.Some? && m.rateLimit.value > 0, Limit(m))
    + If(m.ipAllowlist != [], AllowList(m))
    + If(m.basicAuth.Some?, Account(m))
  }

  /** What `buildHandlers` puts in front of the proxy. */
  function Guards(m: Middlewares): seq<Handler> {
    Front(m) + m.extraHandlers
  }

  method BuildHandlers(upstream: string, m: Middlewares) returns (handlers: seq<Handler>)
    ensures handlers == Guards(m) + [ReverseProxy([upstream])]
  {
    handlers := [];
    if m.rateLimit.Some? && m.rateLimit.value > 0 {
      handlers := handlers + [Other(RateLimit, ShowNat(m.rateLimit.value))];
    }
    if |m.ipAllowlist| > 0 {
      handlers := handlers + [Subroute(m.ipAllowlist, [Other(StaticResponse, "403")])];
    }
    if m.basicAuth.Some? {
      handlers := handlers + [Other(Authentication, m.basicAuth.value)];
    }
    assert handlers == Front(m);
    handlers := handlers + m.extraHandlers;
    handlers := handlers + [ReverseProxy([upstream])];
  }

  /** `buildStaticHandlers`: a file server, behind a rewriting subroute if there is a fallback page. */
  function StaticHandlers(root: string, spaFallback: bool): seq<Handler> {
    if spaFallback then [Subroute([root], [Other(Rewrite, ""), Other(FileServer, root)])]
    else [Other(FileServer, root)]
  }

  /** Position of the first reverse proxy; 0 if there is none. */
  function InsertAt(handle: seq<Handler>): (k: nat)
    ensures k <= |handle| && forall j | 0 <= j < k :: !IsProxy(handle[j])
    ensures (exists h <- handle :: IsProxy(h)) ==> k < |handle| && IsProxy(handle[k])
    ensures (forall h <- handle :: !IsProxy(h)) ==> k == 0
  {
    FirstProxy(handle, 0)
  }

  function FirstProxy(handle: seq<Handler>, i: nat): (k: nat)
    requires i <= |handle| && forall j | 0 <= j < i :: !IsProxy(handle[j])
    ensures k <= |handle| && forall j | 0 <= j < k :: !IsProxy(handle[j])
    ensures (exists h <- handle :: IsProxy(h)) ==> k < |handle| && IsProxy(handle[k])
    ensures (forall h <- handle :: !IsProxy(h)) ==> k == 0
    decreases |handle| - i
  {
    if i == |handle| then 0
    else if IsProxy(handle[i]) then i
    else FirstProxy(handle, i + 1)
  }

  function CacheHandler(config: CdnConfig): Handler {
    var ttl := if config.cacheTtl.Some? && config.cacheTtl.value > 0 then config.cacheTtl.value else 0;
    var cache := Other(Cache, ShowNat(ttl) + "s");
    if config.cachePaths == [] then cache else Subroute(config.cachePaths, [cache])
  }

  function HeadersHandler(config: CdnConfig): Handler {
    Other(Headers, if config.headers.Some? then config.headers.value else "")
  }

  /** Image filter, compression and cache for the internal CDN; response headers for both kinds. */
  function Injected(config: CdnConfig, staticRoot: string): (injected: seq<Handler>)
    ensures forall h <- injected :: !IsProxy(h)
  {
    If(config.mode == Internal && config.imageOptim && staticRoot != "", ResizeImages(staticRoot))
    + If(config.mode == Internal && config.compression, Encoder())
    + If(config.mode == Internal && config.cacheTtl.Some? && config.cacheTtl.value > 0, CacheHandler(config))
    + If(config.mode != Off && config.headers.Some?, HeadersHandler(config))
  }

  function Encoder(): Handler {
    Other(Encode, "br, zstd, gzip")
  }

  function ResizeImages(root: string): Handler {
    Subroute(["*.jpg", "*.jpeg", "*.png", "*.gif", "*.webp"], [Other(ImageFilter, root)])
  }

  /** `added` goes in front of the first proxy. */
  function Splice(handle: seq<Handler>, added: seq<Handler>): seq<Handler> {
    handle[..InsertAt(handle)] + added + handle[InsertAt(handle)..]
  }

  function Inject(config: CdnConfig, handle: seq<Handler>, staticRoot: string): seq<Handler> {
    Splice(handle, Injected(config, staticRoot))
  }

  method CollectInjected(config: CdnConfig, staticRoot: string) returns (injected: seq<Handler>)
    requires config.mode != Off
    ensures injected == Injected(config, staticRoot)
  {
    injected := [];
    if config.mode == Internal {
      if config.imageOptim && staticRoot != "" {
        injected := injected + [ResizeImages(staticRoot)];
      }
      if config.compression {
        injected := injected + [Encoder()];
      }
      if config.cacheTtl.Some? && config.cacheTtl.value > 0 {
        injected := injected + [CacheHandler(config)];
      }
    }
    if config.headers.Some? {
      injected := injected + [HeadersHandler(config)];
    }
  }

  /** `applyCdnHandlers` */
  method ApplyCdnHandlers(config: CdnConfig, handle: seq<Handler>, staticRoot: string) returns (r: seq<Handler>)
    ensures r == Inject(config, handle, staticRoot)
  {
    SpliceNothing(handle);
    if config.mode == Off {
      return handle;
    }
    var at := InsertAt(handle);
    var injected := CollectInjected(config, staticRoot);
    if injected == [] {
      return handle;
    }
    return handle[..at] + injected + handle[at..];
  }

  lemma SpliceNothing(handle: seq<Handler>)
    ensures Splice(handle, []) == handle
  {
  }

  lemma InsertAtIs(handle: seq<Handler>, k: nat)
    requires k < |handle| && IsProxy(handle[k]) && forall j | 0 <= j < k :: !IsProxy(handle[j])
    ensures InsertAt(handle) == k
  {
    assert handle[k] in handle;
  }

  /** Where things are after a splice. */
  lemma SpliceParts(handle: seq<Handler>, added: seq<Handler>)
    ensures var r, k, n := Splice(handle, added), InsertAt(handle), |added|;
            |r| == |handle| + n && r[k..k + n] == added && r[..k] == handle[..k] && r[k + n..] == handle[k..]
  {
  }

  /** The first proxy moves back by exactly the handlers added. */
  lemma SpliceMovesProxy(handle: seq<Handler>, added: seq<Handler>)
    requires (forall h <- added :: !IsProxy(h)) && exists h <- handle :: IsProxy(h)
    ensures InsertAt(Splice(handle, added)) == InsertAt(handle) + |added|
  {
    var r, k, n := Splice(handle, added), InsertAt(handle), |added|;
    assert r[k + n] == handle[k];
    forall j | 0 <= j < k + n
      ensures !IsProxy(r[j])
    {
      if j < k {
        assert r[j] == handle[j];
      } else {
        assert r[j] == added[j - k];
      }
    }
    InsertAtIs(r, k + n);
  }

  lemma SpliceKeeps(handle: seq<Handler>, added: seq<Handler>)
    requires forall h <- added :: !IsProxy(h)
    ensures var r, k, n := Splice(handle, added), InsertAt(handle), |added|;
            && |r| == |handle| + n
            && r[..k] + r[k + n..] == handle
            && (forall h <- r[k..k + n] :: !IsProxy(h))
            && ((exists h <- handle :: IsProxy(h)) ==> InsertAt(r) == k + n)
  {
    SpliceParts(handle, added);
    assert handle[..InsertAt(handle)] + handle[InsertAt(handle)..] == handle;
    if exists h <- handle :: IsProxy(h) {
      SpliceMovesProxy(handle, added);
    }
  }

  /** The handlers there were are all kept in order, and the new ones stand together before the first proxy. */
  lemma InjectionKeepsHandlers(config: CdnConfig, handle: seq<Handler>, staticRoot: string)
    ensures var r, k, n := Inject(config, handle, staticRoot), InsertAt(handle), |Injected(config, staticRoot)|;
            && |r| == |handle| + n
            && r[..k] + r[k + n..] == handle
            && (forall h <- r[k..k + n] :: !IsProxy(h))
            && ((exists h <- handle :: IsProxy(h)) ==> InsertAt(r) == k + n)
  {
    SpliceKeeps(handle, Injected(config, staticRoot));
  }

  /** A proxy that is last stays last. */
  lemma ProxyStaysLast(config: CdnConfig, guards: seq<Handler>, dial: string, staticRoot: string)
    requires forall h <- guards :: !IsProxy(h)
    ensures Inject(config, guards + [ReverseProxy([dial])], staticRoot)
         == guards + Injected(config, staticRoot) + [ReverseProxy([dial])]
  {
    var s := guards + [ReverseProxy([dial])];
    assert forall i | 0 <= i < |guards| :: s[i] == guards[i];
    InsertAtIs(s, |guards|);
    assert s[..|guards|] == guards && s[|guards|..] == [ReverseProxy([dial])];
  }

  // ----- What stands in front of a proxy ------------------------------------------------------------

  /** Every handler has a rank, and ranks increase: one handler of each kind at most, in order. */
  predicate Ranked(hs: seq<Handler>, rank: Handler -> nat) {
    && (forall i | 0 <= i < |hs| :: rank(hs[i]) > 0)
    && (forall i, j | 0 <= i < j < |hs| :: rank(hs[i]) < rank(hs[j]))
  }

  predicate Below(hs: seq<Handler>, rank: Handler -> nat, n: nat) {
    forall i | 0 <= i < |hs| :: rank(hs[i]) < n
  }

  /** One more handler, if `c`, with a higher rank. */
  lemma RankedSnoc(hs: seq<Handler>, c: bool, h: Handler, rank: Handler -> nat)
    requires Ranked(hs, rank) && rank(h) > 0 && Below(hs, rank, rank(h))
    ensures Ranked(hs + If(c, h), rank) && Below(hs + If(c, h), rank, rank(h) + 1)
    ensures forall x :: x in hs + If(c, h) <==> x in hs || (c && x == h)
  {
    if !c {
      assert hs + If(c, h) == hs;
    }
  }

  lemma BelowMore(hs: seq<Handler>, rank: Handler -> nat, m: nat, n: nat)
    requires Below(hs, rank, m) && m <= n
    ensures Below(hs, rank, n)
  {
  }

  lemma RankedThree(c1: bool, h1: Handler, c2: bool, h2: Handler, c3: bool, h3: Handler, rank: Handler -> nat)
    requires 0 < rank(h1) < rank(h2) < rank(h3)
    ensures var hs := If(c1, h1) + If(c2, h2) + If(c3, h3);
            Ranked(hs, rank) && Below(hs, rank, rank(h3) + 1) &&
            forall x :: x in hs <==> (c1 && x == h1) || (c2 && x == h2) || (c3 && x == h3)
  {
    var a := If(c1, h1);
    RankedSnoc([], c1, h1, rank);
    assert [] + a == a;
    BelowMore(a, rank, rank(h1) + 1, rank(h2));
    RankedSnoc(a, c2, h2, rank);
    BelowMore(a + If(c2, h2), rank, rank(h2) + 1, rank(h3));
    RankedSnoc(a + If(c2, h2), c3, h3, rank);
  }

  /** Up to four handlers of increasing ranks. */
  lemma RankedOptions(c1: bool, h1: Handler, c2: bool, h2: Handler, c3: bool, h3: Handler, c4: bool, h4: Handler,
                      rank: Handler -> nat)
    requires 0 < rank(h1) < rank(h2) < rank(h3) < rank(h4)
    ensures var hs := If(c1, h1) + If(c2, h2) + If(c3, h3) + If(c4, h4);
            Ranked(hs, rank) &&
            forall x :: x in hs <==> (c1 && x == h1) || (c2 && x == h2) || (c3 && x == h3) || (c4 && x == h4)
  {
    var hs := If(c1, h1) + If(c2, h2) + If(c3, h3);
    RankedThree(c1, h1, c2, h2, c3, h3, rank);
    BelowMore(hs, rank, rank(h3) + 1, rank(h4));
    RankedSnoc(hs, c4, h4, rank);
  }

  function GuardRank(h: Handler): nat {
    if h.Other? && h.name == RateLimit then 1
    else if h.Subroute? && h.inner == [Other(StaticResponse, "403")] then 2
    else if h.Other? && h.name == Authentication then 3
    else 0
  }

  /**
   A rate limit of that value if and only if it is positive, a 403 subroute over exactly the allow list if and only
   if it is not empty, an authentication handler if and only if an account is set; in this order, and nothing else.
   */
  ghost predicate IsFront(hs: seq<Handler>, m: Middlewares) {
    && Ranked(hs, GuardRank)
    && (forall limit :: Other(RateLimit, limit) in hs <==>
          m.rateLimit.Some? && m.rateLimit.value > 0 && limit == ShowNat(m.rateLimit.value))
    && (forall list :: Subroute(list, [Other(StaticResponse, "403")]) in hs <==>
          list == m.ipAllowlist && list != [])
    && (forall account :: Other(Authentication, account) in hs <==> m.basicAuth == Some(account))
  }

  lemma FrontHolds(m: Middlewares)
    ensures Ranked(Front(m), GuardRank)
    ensures forall x :: x in Front(m) <==>
              || (m.rateLimit.Some? && m.rateLimit.value > 0 && x == Limit(m))
              || (m.ipAllowlist != [] && x == AllowList(m))
              || (m.basicAuth.Some? && x == Account(m))
  {
    RankedThree(m.rateLimit.Some? && m.rateLimit.value > 0, Limit(m), m.ipAllowlist != [], AllowList(m),
                m.basicAuth.Some?, Account(m), GuardRank);
  }

  lemma FrontIsFront(m: Middlewares)
    ensures IsFront(Front(m), m)
  {
    FrontHolds(m);
  }

  function CdnRank(h: Handler): nat {
    match h
    case ReverseProxy(_) => 0
    case Subroute(_, inner) =>
      if |inner| == 1 && inner[0].Other? && inner[0].name == ImageFilter then 1
      else if |inner| == 1 && inner[0].Other? && inner[0].name == Cache then 3
      else 0
    case Other(name, _) =>
      if name == Encode then 2 else if name == Cache then 3 else if name == Headers then 4 else 0
  }

  /** The life time of cached answers, if the CDN caches at all. */
  predicate Caches(config: CdnConfig, ttl: string) {
    config.mode == Internal && config.cacheTtl.Some? && config.cacheTtl.value > 0 &&
    ttl == ShowNat(config.cacheTtl.value) + "s"
  }

  /**
   An image filter over the root, compression, a cache over the paths (over everything without paths) for the
   internal CDN, response headers for both kinds, each if and only if configured; in this order, and nothing else.
   */
  ghost predicate IsInjected(hs: seq<Handler>, config: CdnConfig, root: string) {
    && Ranked(hs, CdnRank)
    && (forall r :: Subroute(["*.jpg", "*.jpeg", "*.png", "*.gif", "*.webp"], [Other(ImageFilter, r)]) in hs <==>
          config.mode == Internal && config.imageOptim && r == root && root != "")
    && (forall c :: Other(Encode, c) in hs <==>
          config.mode == Internal && config.compression && c == "br, zstd, gzip")
    && (forall ttl :: Other(Cache, ttl) in hs <==> Caches(config, ttl) && config.cachePaths == [])
    && (forall paths, ttl :: Subroute(paths, [Other(Cache, ttl)]) in hs <==>
          Caches(config, ttl) && paths == config.cachePaths && paths != [])
    && (forall headers :: Other(Headers, headers) in hs <==> config.mode != Off && config.headers == Some(headers))
  }

  lemma InjectedHolds(config: CdnConfig, root: string)
    ensures Ranked(Injected(config, root), CdnRank)
    ensures forall x :: x in Injected(config, root) <==>
              || (config.mode == Internal && config.imageOptim && root != "" && x == ResizeImages(root))
              || (config.mode == Internal && config.compression && x == Encoder())
              || (config.mode == Internal && config.cacheTtl.Some? && config.cacheTtl.value > 0 &&
                  x == CacheHandler(config))
              || (config.mode != Off && config.headers.Some? && x == HeadersHandler(config))
  {
    RankedOptions(config.mode == Internal && config.imageOptim && root != "", ResizeImages(root),
                  config.mode == Internal && config.compression, Encoder(),
                  config.mode == Internal && config.cacheTtl.Some? && config.cacheTtl.value > 0, CacheHandler(config),
                  config.mode != Off && config.headers.Some?, HeadersHandler(config), CdnRank);
  }

  lemma InjectedCache(config: CdnConfig, root: string)
    ensures forall ttl :: Other(Cache, ttl) in Injected(config, root) <==>
              Caches(config, ttl) && config.cachePaths == []
    ensures forall paths, ttl :: Subroute(paths, [Other(Cache, ttl)]) in Injected(config, root) <==>
              Caches(config, ttl) && paths == config.cachePaths && paths != []
  {
    InjectedHolds(config, root);
  }

  lemma InjectedOthers(config: CdnConfig, root: string)
    ensures forall r :: Subroute(["*.jpg", "*.jpeg", "*.png", "*.gif", "*.webp"], [Other(ImageFilter, r)])
                        in Injected(config, root)
              <==> config.mode == Internal && config.imageOptim && r == root && root != ""
    ensures forall c :: Other(Encode, c) in Injected(config, root) <==>
              config.mode == Internal && config.compression && c == "br, zstd, gzip"
    ensures forall headers :: Other(Headers, headers) in Injected(config, root) <==>
              config.mode != Off && config.headers == Some(headers)
  {
    InjectedHolds(config, root);
  }

  lemma InjectedIsInjected(config: CdnConfig, root: string)
    ensures IsInjected(Injected(config, root), config, root)
  {
    InjectedHolds(config, root);
    InjectedCache(config, root);
    InjectedOthers(config, root);
  }

  /** `handle` is `base` with `added` put in directly before its first proxy. */
  predicate Placed(handle: seq<Handler>, base: seq<Handler>, added: seq<Handler>, k: nat) {
    && k + |added| < |handle| && handle[k..k + |added|] == added
    && handle[..k] + handle[k + |added|..] == base
    && (forall i | 0 <= i < k :: !handle[i].ReverseProxy?) && handle[k + |added|].ReverseProxy?
  }

  lemma SplicePlaced(base: seq<Handler>, added: seq<Handler>)
    requires exists h <- base :: IsProxy(h)
    ensures Placed(Splice(base, added), base, added, InsertAt(base))
  {
    var r, k, n := Splice(base, added), InsertAt(base), |added|;
    SpliceParts(base, added);
    assert base[..k] + base[k..] == base;
    assert r[k + n] == r[k + n..][0] == base[k];
    forall i | 0 <= i < k ensures !r[i].ReverseProxy? {
      assert r[i] == r[..k][i] == base[i];
    }
  }

  /** The handlers of a route with this upstream: guards, extras and proxy, and the CDN's before the first proxy. */
  ghost predicate ServesUpstream(handle: seq<Handler>, m: Middlewares, cdn: Option<CdnConfig>, upstream: string) {
    exists front, added, k: nat ::
      && IsFront(front, m)
      && (if cdn.Some? then IsInjected(added, cdn.value, "") else added == [])
      && Placed(handle, front + m.extraHandlers + [ReverseProxy([upstream])], added, k)
  }

  // ----- Upstreams --------------------------------------------------------------------------------

  function LeadingDigits(s: string): (r: string)
    ensures r <= s && AllDigits(r)
  {
    if s == "" || !IsDigit(s[0]) then "" else [s[0]] + LeadingDigits(s[1..])
  }

  /** `parseInt(s, 10)`; `None` is NaN. */
  function ParseInt(s: string): Option<int> {
    ParseTrimmed(TrimStart(s))
  }

  function ParseTrimmed(t: string): Option<int> {
    var negative := t != "" && t[0] == '-';
    var digits := LeadingDigits(if t != "" && (t[0] == '-' || t[0] == '+') then t[1..] else t);
    if digits == "" then None
    else Some(if negative then -(ReadDigits(digits) as int) else ReadDigits(digits))
  }

  /** The host and port that `getUpstream` reads off a dial string. */
  function ParseDial(dial: string): Option<(string, int)> {
    if dial == "" then None else
    var colon := LastIndexOf(dial, ':');
    if colon == -1 then None else
    var host, port := dial[..colon], ParseInt(dial[colon + 1..]);
    if host == "" || port.None? then None else Some((host, port.value))
  }

  function Dial(host: string, port: nat): string {
    host + ":" + ShowNat(port)
  }

  /** Digits, and anything but a digit behind them. */
  lemma ParseUnsigned(s: string, tail: string)
    requires s != "" && AllDigits(s) && (tail == "" || !IsDigit(tail[0]))
    ensures ParseInt(s + tail) == Some(ReadDigits(s))
  {
    DigitIsNoSpace(s[0]);
    TrimStartTight(s + tail);
    LeadingDigitsThen(s, tail);
  }

  /** The same behind a sign. */
  lemma ParseSigned(sign: char, s: string, tail: string)
    requires sign == '+' || sign == '-'
    requires s != "" && AllDigits(s) && (tail == "" || !IsDigit(tail[0]))
    ensures ParseInt([sign] + (s + tail)) == Some(if sign == '-' then -(ReadDigits(s) as int) else ReadDigits(s))
  {
    SignIsFirst(sign, s + tail);
    LeadingDigitsThen(s, tail);
    TrimmedIs([sign] + (s + tail), s);
  }

  lemma TrimmedIs(t: string, digits: string)
    requires t != "" && (t[0] == '-' || t[0] == '+') && LeadingDigits(t[1..]) == digits && digits != ""
    ensures ParseTrimmed(t) == Some(if t[0] == '-' then -(ReadDigits(digits) as int) else ReadDigits(digits))
  {
  }

  lemma SignIsFirst(sign: char, rest: string)
    requires sign == '+' || sign == '-'
    ensures var t := [sign] + rest; TrimStart(t) == t && t[0] == sign && t[1..] == rest
  {
    TrimStartTight([sign] + rest);
  }

  lemma {:induction false} LeadingDigitsThen(s: string, tail: string)
    requires AllDigits(s) && (tail == "" || !IsDigit(tail[0]))
    ensures LeadingDigits(s + tail) == s
  {
    if s == "" {
      assert s + tail == tail;
    } else {
      LeadingDigitsThen(s[1..], tail);
      assert (s + tail)[1..] == s[1..] + tail;
    }
  }

  lemma ParseShown(n: nat)
    ensures ParseInt(ShowNat(n)) == Some(n)
  {
    ReadShow(n);
    ParseUnsigned(ShowNat(n), "");
    assert ShowNat(n) + "" == ShowNat(n);
  }

  /** A dial string gives back its host, whatever it holds, and its port; only an empty host is lost. */
  lemma DialRoundTrip(host: string, port: nat)
    ensures ParseDial(Dial(host, port)) == if host == "" then None else Some((host, port as int))
  {
    var dial, shown := Dial(host, port), ShowNat(port);
    assert dial[|host|] == ':';
    assert forall k | |host| < k < |dial| :: dial[k] == shown[k - |host| - 1] && IsDigit(dial[k]);
    assert LastIndexOf(dial, ':') == |host|;
    assert dial[..|host|] == host && dial[|host| + 1..] == shown;
    ParseShown(port);
  }

  function FirstDial(h: Handler): string
    requires IsProxy(h)
  {
    if h.dials == [] then "" else h.dials[0]
  }

  /** What the first reverse proxy of a route dials. */
  function UpstreamOf(handle: seq<Handler>): Option<(string, int)> {
    var k := InsertAt(handle);
    if k < |handle| && IsProxy(handle[k]) then ParseDial(FirstDial(handle[k])) else None
  }

  /** The handlers of the CDN on a route with an upstream. */
  function Added(cdn: Option<CdnConfig>): seq<Handler> {
    if cdn.Some? then Injected(cdn.value, "") else []
  }

  /** What `upsertRoute` stores. */
  function RouteHandlers(upstream: string, m: Middlewares, cdn: Option<CdnConfig>): seq<Handler> {
    var handle := Guards(m) + [ReverseProxy([upstream])];
    if cdn.Some? then Inject(cdn.value, handle, "") else handle
  }

  /** What `setUpstream` stores. */
  function UpstreamHandlers(host: string, port: nat, cdn: Option<CdnConfig>): seq<Handler> {
    RouteHandlers(Dial(host, port), NO_MIDDLEWARES, cdn)
  }

  /** What `upsertRoute` stores is what the configuration asks for. */
  lemma RouteServesUpstream(upstream: string, m: Middlewares, cdn: Option<CdnConfig>)
    ensures ServesUpstream(RouteHandlers(upstream, m, cdn), m, cdn, upstream)
  {
    var base := Guards(m) + [ReverseProxy([upstream])];
    assert base[|Guards(m)|] in base && IsProxy(base[|Guards(m)|]);
    FrontIsFront(m);
    SplicePlaced(base, Added(cdn));
    if cdn.Some? {
      InjectedIsInjected(cdn.value, "");
    } else {
      SpliceNothing(base);
    }
    assert Placed(RouteHandlers(upstream, m, cdn), Front(m) + m.extraHandlers + [ReverseProxy([upstream])],
                  Added(cdn), InsertAt(base));
  }

  /** Whatever the CDN configuration, what was set is what is read back; only an empty host is lost. */
  lemma UpstreamRoundTrip(host: string, port: nat, cdn: Option<CdnConfig>)
    ensures UpstreamOf(UpstreamHandlers(host, port, cdn)) == if host == "" then None else Some((host, port as int))
  {
    var dial := Dial(host, port);
    UpstreamHandlersAre(dial, cdn);
    var r := Added(cdn) + [ReverseProxy([dial])];
    InsertAtIs(r, |Added(cdn)|);
    DialRoundTrip(host, port);
  }

  lemma UpstreamHandlersAre(dial: string, cdn: Option<CdnConfig>)
    ensures RouteHandlers(dial, NO_MIDDLEWARES, cdn) == Added(cdn) + [ReverseProxy([dial])]
    ensures forall h <- Added(cdn) :: !IsProxy(h)
  {
    var proxy := [ReverseProxy([dial])];
    NoGuards();
    NothingBefore(proxy);
    NothingBefore(Added(cdn) + proxy);
    if cdn.Some? {
      ProxyStaysLast(cdn.value, [], dial, "");
      ConcatAssociates([], Added(cdn), proxy);
    }
  }

  lemma NoGuards()
    ensures Guards(NO_MIDDLEWARES) == []
  {
  }

  lemma NothingBefore(hs: seq<Handler>)
    ensures [] + hs == hs
  {
  }

  /** The CDN's handlers, and then a file server over the root, behind a rewrite if there is a fallback page. */
  ghost predicate ServesFiles(handle: seq<Handler>, root: string, spaFallback: bool, cdn: CdnConfig) {
    handle != [] && IsInjected(handle[..|handle| - 1], cdn, root) &&
    var last := handle[|handle| - 1];
    if spaFallback then last == Subroute([root], [Other(Rewrite, ""), Other(FileServer, root)])
    else last == Other(FileServer, root)
  }

  lemma RouteServesFiles(root: string, spaFallback: bool, cdn: CdnConfig)
    ensures ServesFiles(Inject(cdn, StaticHandlers(root, spaFallback), root), root, spaFallback, cdn)
  {
    var files := StaticHandlers(root, spaFallback);
    assert InsertAt(files) == 0;
    var handle := Inject(cdn, files, root);
    assert handle == Injected(cdn, root) + files;
    assert handle[..|handle| - 1] == Injected(cdn, root);
    InjectedIsInjected(cdn, root);
  }

  // ----- The client -------------------------------------------------------------------------------

  function RouteId(appId: string): string {
    "ploydok-" + appId
  }

  function AppOp(appId: string, host: string, handle: seq<Handler>): Op {
    Upsert(RouteId(appId), Hosts([host]), handle)
  }

  // ----- The reconciler's plan --------------------------------------------------------------------

  /** A row of the apps table; empty strings stand for null. */
  datatype App = App(id: string, domain: string, isStatic: bool, spaFallback: Option<bool>,
                     swarm: bool, swarmServiceName: string, containerId: string,
                     runtimePort: Option<nat>, healthcheckPort: Option<nat>, cdn: CdnConfig)

  function UpstreamHost(app: App): string {
    if app.swarm then app.swarmServiceName else app.containerId
  }

  function Port(app: App, defaultPort: nat): nat {
    match (app.runtimePort, app.healthcheckPort)
    case (Some(port), _) => port
    case (None, Some(port)) => port
    case (None, None) => defaultPort
  }

  /** What the reconciler does with a row: nothing, or one upsert. */
  function Plan(app: App, defaultPort: nat, root: string -> string): Option<Op> {
    if app.domain == "" then None
    else if app.isStatic then
      var spa := app.spaFallback.None? || app.spaFallback.value;
      Some(AppOp(app.id, app.domain, Inject(app.cdn, StaticHandlers(root(app.id), spa), root(app.id))))
    else if UpstreamHost(app) == "" then None
    else Some(AppOp(app.id, app.domain, UpstreamHandlers(UpstreamHost(app), Port(app, defaultPort), Some(app.cdn))))
  }

  /** The upserts that succeed; `fails(i)` says whether Caddy refuses that of row `i`. */
  function Plans(apps: seq<App>, plan: App -> Option<Op>, fails: nat -> bool): seq<Op> {
    if apps == [] then [] else
    var n := |apps| - 1;
    Plans(apps[..n], plan, fails) + if plan(apps[n]).Some? && !fails(n) then [plan(apps[n]).value] else []
  }

  predicate Never(i: nat) {
    false
  }

  lemma RunSnoc(routes: seq<Route>, ops: seq<Op>, op: Op)
    ensures Run(routes, ops + [op]) == Apply(Run(routes, ops), op)
  {
    assert (ops + [op])[..|ops|] == ops;
  }

  lemma PlansAdvance(routes: seq<Route>, apps: seq<App>, plan: App -> Option<Op>, fails: nat -> bool, i: nat)
    requires i < |apps|
    ensures var before, after := Plans(apps[..i], plan, fails), Plans(apps[..i + 1], plan, fails);
            if plan(apps[i]).Some? && !fails(i) then
              |after| == |before| + 1 && Run(routes, after) == Apply(Run(routes, before), plan(apps[i]).value)
            else
              after == before
  {
    assert apps[..i + 1][..i] == apps[..i];
    if plan(apps[i]).Some? && !fails(i) {
      RunSnoc(routes, Plans(apps[..i], plan, fails), plan(apps[i]).value);
    }
  }

  lemma PlansWhole(apps: seq<App>, plan: App -> Option<Op>, fails: nat -> bool)
    ensures Plans(apps[..|apps|], plan, fails) == Plans(apps, plan, fails)
  {
    assert apps[..|apps|] == apps;
  }

  lemma PlansNone(apps: seq<App>, plan: App -> Option<Op>, fails: nat -> bool)
    ensures Plans(apps[..0], plan, fails) == []
  {
  }

  predicate DistinctApps(apps: seq<App>) {
    forall i, j | 0 <= i < j < |apps| :: apps[i].id != apps[j].id
  }

  lemma RouteIdsDiffer(a: string, b: string)
    requires a != b
    ensures RouteId(a) != RouteId(b)
  {
    assert RouteId(a)[8..] == a && RouteId(b)[8..] == b;
  }

  /** Every plan is an upsert under the app's own id. */
  ghost predicate OwnIds(plan: App -> Option<Op>) {
    forall app :: plan(app).Some? ==> plan(app).value.Upsert? && plan(app).value.id == RouteId(app.id)
  }

  lemma SurvivesMore(ops: seq<Op>, more: seq<Op>, k: nat)
    requires Survives(ops, k) && forall op <- more :: op.id != ops[k].id
    ensures Survives(ops + more, k)
  {
  }

  lemma LastSurvives(ops: seq<Op>, op: Op)
    requires op.Upsert?
    ensures Survives(ops + [op], |ops|) && (ops + [op])[|ops|] == op
  {
  }

  /** The upsert of a row survives all others. */
  lemma {:induction false} PlanSurvives(apps: seq<App>, plan: App -> Option<Op>, fails: nat -> bool, i: nat)
    returns (k: nat)
    requires OwnIds(plan) && DistinctApps(apps) && i < |apps| && plan(apps[i]).Some? && !fails(i)
    ensures Survives(Plans(apps, plan, fails), k) && Plans(apps, plan, fails)[k] == plan(apps[i]).value
  {
    var n := |apps| - 1;
    var before := Plans(apps[..n], plan, fails);
    if i == n {
      k := |before|;
      LastSurvives(before, plan(apps[n]).value);
    } else {
      k := PlanSurvives(apps[..n], plan, fails, i);
      RouteIdsDiffer(apps[i].id, apps[n].id);
      SurvivesMore(before, if plan(apps[n]).Some? && !fails(n) then [plan(apps[n]).value] else [], k);
    }
  }

  function Planner(defaultPort: nat, root: string -> string): App -> Option<Op> {
    app => Plan(app, defaultPort, root)
  }

  lemma PlannerUsesOwnIds(defaultPort: nat, root: string -> string)
    ensures OwnIds(Planner(defaultPort, root))
  {
  }

  /** After a reconciliation, every app that it could route is found with its own host and port. */
  lemma ReconciledUpstream(routes: seq<Route>, apps: seq<App>, defaultPort: nat, root: string -> string,
                           fails: nat -> bool, i: nat)
    requires DistinctApps(apps) && i < |apps| && !fails(i)
    requires !apps[i].isStatic && Plan(apps[i], defaultPort, root).Some?
    ensures var route := ById(Run(routes, Plans(apps, Planner(defaultPort, root), fails)), RouteId(apps[i].id));
            route.Some? && UpstreamOf(route.value.handle)
                           == Some((if apps[i].swarm then apps[i].swarmServiceName else apps[i].containerId,
                                    if apps[i].runtimePort.Some? then apps[i].runtimePort.value
                                    else if apps[i].healthcheckPort.Some? then apps[i].healthcheckPort.value
                                    else defaultPort))
  {
    PlannerUsesOwnIds(defaultPort, root);
    var k := PlanSurvives(apps, Planner(defaultPort, root), fails, i);
    ByIdFindsSurvivor(routes, Plans(apps, Planner(defaultPort, root), fails), k);
    UpstreamRoundTrip(UpstreamHost(apps[i]), Port(apps[i], defaultPort), Some(apps[i].cdn));
  }

  // ----- Requests in sequence -----------------------------------------------------------------------

  datatype Command = Put(appId: string, host: string, handle: seq<Handler>) | Drop(appId: string)

  function OpOf(c: Command): Op {
    match c
    case Put(appId, host, handle) => AppOp(appId, host, handle)
    case Drop(appId) => Remove(RouteId(appId))
  }

  /** The operations of the requests that succeed. */
  function Effects(commands: seq<Command>, fails: nat -> bool): seq<Op> {
    if commands == [] then [] else
    var n := |commands| - 1;
    Effects(commands[..n], fails) + if fails(n) then [] else [OpOf(commands[n])]
  }

  lemma EffectsWhole(commands: seq<Command>, fails: nat -> bool)
    ensures Effects(commands[..|commands|], fails) == Effects(commands, fails)
  {
    assert commands[..|commands|] == commands;
  }

  lemma EffectsNone(commands: seq<Command>, fails: nat -> bool)
    ensures Effects(commands[..0], fails) == []
  {
  }

  /** Operation `i` answers the host, and none after it does. */
  predicate LatestAnswers(ops: seq<Op>, i: nat, host: string) {
    Answers(ops, i, host) && forall j: nat | i < j < |ops| :: !Answers(ops, j, host)
  }

  /** What a run of requests means for the routes: ids, foreign routes, and who answers. */
  ghost predicate Executed(before: seq<Route>, ops: seq<Op>, after: seq<Route>) {
    && after == Recent(ops, {}) + Without(before, Ids(ops))
    && (UniqueIds(before) ==> UniqueIds(after))
    && (forall host, i: nat | LatestAnswers(ops, i, host) :: Lookup(after, host) == Some(RouteOf(ops[i])))
  }

  lemma RunIsExecuted(before: seq<Route>, ops: seq<Op>)
    ensures Executed(before, ops, Run(before, ops))
  {
    ListIsRecencyOrdered(before, ops);
    if UniqueIds(before) {
      UniqueIdsKept(before, ops);
    }
    forall host, i: nat | LatestAnswers(ops, i, host)
      ensures Lookup(Run(before, ops), host) == Some(RouteOf(ops[i]))
    {
      LatestUpsertAnswers(before, ops, host, i);
    }
  }

  lemma EffectsAdvance(routes: seq<Route>, commands: seq<Command>, fails: nat -> bool, i: nat)
    requires i < |commands|
    ensures var before, after := Effects(commands[..i], fails), Effects(commands[..i + 1], fails);
            Run(routes, after) == if fails(i) then Run(routes, before)
                                  else Apply(Run(routes, before), OpOf(commands[i]))
  {
    assert commands[..i + 1][..i] == commands[..i];
    if fails(i) {
      assert Effects(commands[..i], fails) + [] == Effects(commands[..i], fails);
    } else {
      RunSnoc(routes, Effects(commands[..i], fails), OpOf(commands[i]));
    }
  }

  class Client {
    var routes: seq<Route>

    constructor (existing: seq<Route>)
      ensures routes == existing
    {
      routes := existing;
    }

    /** `putRouteFirst`; with `fails`, a request to Caddy fails and the call throws. */
    method PutRouteFirst(op: Op, fails: bool) returns (ok: bool)
      requires op.Upsert?
      modifies this
      ensures ok == !fails
      ensures routes == if ok then Apply(old(routes), op) else old(routes)
    {
      if fails {
        return false;
      }
      routes := [RouteOf(op)] + Without(routes, {op.id});
      return true;
    }

    /**
     `removeRoute`; a missing route is no error.  Afterwards the app has no route, and the others stand as
     they stood; a failed request changes nothing.
     */
    method RemoveRoute(appId: string, fails: bool) returns (ok: bool)
      modifies this
      ensures ok == !fails
      ensures ok ==> ById(routes, RouteId(appId)) == None && routes == Without(old(routes), {RouteId(appId)})
      ensures !ok ==> routes == old(routes)
    {
      if fails {
        return false;
      }
      routes := Without(routes, {RouteId(appId)});
      NoneById(old(routes), RouteId(appId));
      return true;
    }

    /** One request. */
    method ExecuteOne(c: Command, fails: bool)
      modifies this
      ensures routes == if fails then old(routes) else Apply(old(routes), OpOf(c))
    {
      var ok;
      match c
      case Put(appId, host, handle) => ok := PutRouteFirst(AppOp(appId, host, handle), fails);
      case Drop(appId) => ok := RemoveRoute(appId, fails);
    }

    /** Any run of route requests; `fails(i)` says whether Caddy refuses the one at position `i`. */
    method Execute(commands: seq<Command>, fails: nat -> bool)
      modifies this
      ensures Executed(old(routes), Effects(commands, fails), routes)
    {
      EffectsNone(commands, fails);
      for i := 0 to |commands|
        invariant routes == Run(old(routes), Effects(commands[..i], fails))
      {
        EffectsAdvance(old(routes), commands, fails, i);
        ExecuteOne(commands[i], fails(i));
      }
      EffectsWhole(commands, fails);
      RunIsExecuted(old(routes), Effects(commands, fails));
    }

    /** `upsertRoute`, without the TLS policy */
    method UpsertRoute(appId: string, host: string, upstream: string, m: Middlewares, cdn: Option<CdnConfig>,
                       fails: bool)
      returns (ok: bool)
      modifies this
      ensures ok == !fails
      ensures routes == if ok then Apply(old(routes), AppOp(appId, host, RouteHandlers(upstream, m, cdn)))
                        else old(routes)
      // The route that answers the host is the app's, and it serves the upstream behind the guards.
      ensures ok ==> var route := Lookup(routes, host);
                     route.Some? && route.value.id == Some("ploydok-" + appId) &&
                     ServesUpstream(route.value.handle, m, cdn, upstream)
    {
      var handle := BuildHandlers(upstream, m);
      if cdn.Some? {
        handle := ApplyCdnHandlers(cdn.value, handle, "");
      }
      ok := PutRouteFirst(AppOp(appId, host, handle), fails);
      RouteServesUpstream(upstream, m, cdn);
      JustPut(old(routes), RouteId(appId), host, handle);
    }

    /** `setUpstream` */
    method SetUpstream(appId: string, host: string, upstreamHost: string, port: nat, cdn: Option<CdnConfig>,
                       fails: bool)
      returns (ok: bool)
      modifies this
      ensures ok == !fails
      ensures routes == if ok then Apply(old(routes), AppOp(appId, host, UpstreamHandlers(upstreamHost, port, cdn)))
                        else old(routes)
      ensures ok ==> var route := Lookup(routes, host);
                     route.Some? && route.value.id == Some("ploydok-" + appId) &&
                     ServesUpstream(route.value.handle, NO_MIDDLEWARES, cdn, upstreamHost + ":" + ShowNat(port))
    {
      ok := UpsertRoute(appId, host, Dial(upstreamHost, port), NO_MIDDLEWARES, cdn, fails);
    }

    /** `upsertStaticRoute` */
    method UpsertStaticRoute(appId: string, host: string, root: string, spaFallback: bool, cdn: CdnConfig, fails: bool)
      returns (ok: bool)
      modifies this
      ensures ok == !fails
      ensures var handle := Inject(cdn, StaticHandlers(root, spaFallback), root);
              routes == if ok then Apply(old(routes), AppOp(appId, host, handle)) else old(routes)
      ensures ok ==> var route := Lookup(routes, host);
                     route.Some? && route.value.id == Some("ploydok-" + appId) &&
                     ServesFiles(route.value.handle, root, spaFallback, cdn)
    {
      var handle := ApplyCdnHandlers(cdn, StaticHandlers(root, spaFallback), root);
      ok := PutRouteFirst(AppOp(appId, host, handle), fails);
      RouteServesFiles(root, spaFallback, cdn);
      JustPut(old(routes), RouteId(appId), host, handle);
    }

    /** `getUpstream` */
    method GetUpstream(appId: string) returns (r: Option<(string, int)>)
      ensures var route := ById(routes, RouteId(appId));
              r == if route.Some? then UpstreamOf(route.value.handle) else None
    {
      var route := ById(routes, RouteId(appId));
      if route.None? {
        return None;
      }
      var handle := route.value.handle;
      for i := 0 to |handle|
        invariant forall j | 0 <= j < i :: !IsProxy(handle[j])
      {
        if IsProxy(handle[i]) {
          InsertAtIs(handle, i);
          return ParseDial(FirstDial(handle[i]));
        }
      }
      return None;
    }

    /** Setting and then getting, on any table. */
    method SetThenGet(appId: string, host: string, upstreamHost: string, port: nat, cdn: Option<CdnConfig>)
      returns (r: Option<(string, int)>)
      modifies this
      ensures r == if upstreamHost == "" then None else Some((upstreamHost, port as int))
      ensures Lookup(routes, host).Some? && Lookup(routes, host).value.id == Some(RouteId(appId))
    {
      var ok := SetUpstream(appId, host, upstreamHost, port, cdn, false);
      UpstreamRoundTrip(upstreamHost, port, cdn);
      JustPut(old(routes), RouteId(appId), host, UpstreamHandlers(upstreamHost, port, cdn));
      r := GetUpstream(appId);
    }

    /** One turn of the reconciler's loop. */
    method ReconcileApp(app: App, defaultPort: nat, root: string -> string, fails: bool)
      returns (skipped: bool, ok: bool)
      modifies this
      ensures var plan := Planner(defaultPort, root)(app);
              && skipped == plan.None?
              && (!skipped ==> ok == !fails)
              && routes == if plan.Some? && !fails then Apply(old(routes), plan.value) else old(routes)
      ensures skipped <==>
                app.domain == "" ||
                (!app.isStatic && if app.swarm then app.swarmServiceName == "" else app.containerId == "")
      ensures !skipped && ok ==>
                var route := Lookup(routes, app.domain);
                route.Some? && route.value.id == Some("ploydok-" + app.id) &&
                if app.isStatic
                then ServesFiles(route.value.handle, root(app.id), app.spaFallback != Some(false), app.cdn)
                else ServesUpstream(route.value.handle, NO_MIDDLEWARES, Some(app.cdn),
                                    (if app.swarm then app.swarmServiceName else app.containerId) + ":" +
                                    ShowNat(if app.runtimePort.Some? then app.runtimePort.value
                                            else if app.healthcheckPort.Some? then app.healthcheckPort.value
                                            else defaultPort))
    {
      if app.domain == "" {
        return true, false;
      }
      if app.isStatic {
        var spa := app.spaFallback.None? || app.spaFallback.value;
        ok := UpsertStaticRoute(app.id, app.domain, root(app.id), spa, app.cdn, fails);
      } else {
        var upstreamHost := if app.swarm then app.swarmServiceName else app.containerId;
        if upstreamHost == "" {
          return true, false;
        }
        ok := SetUpstream(app.id, app.domain, upstreamHost, Port(app, defaultPort), Some(app.cdn), fails);
      }
      skipped := false;
    }

    /** The same for row `i`, in terms of what has been planned so far. */
    method ReconcileRow(apps: seq<App>, i: nat, defaultPort: nat, root: string -> string, fails: nat -> bool,
                        ghost existing: seq<Route>) returns (skipped: bool, ok: bool)
      requires i < |apps|
      requires routes == Run(existing, Plans(apps[..i], Planner(defaultPort, root), fails))
      modifies this
      ensures var plan := Planner(defaultPort, root);
              && routes == Run(existing, Plans(apps[..i + 1], plan, fails))
              && |Plans(apps[..i + 1], plan, fails)|
                 == |Plans(apps[..i], plan, fails)| + (if !skipped && ok then 1 else 0)
              && |Plans(apps[..i + 1], plan, Never)| == |Plans(apps[..i], plan, Never)| + (if skipped then 0 else 1)
    {
      PlansAdvance(existing, apps, Planner(defaultPort, root), fails, i);
      PlansAdvance(existing, apps, Planner(defaultPort, root), Never, i);
      skipped, ok := ReconcileApp(apps[i], defaultPort, root, fails(i));
    }

    /** `reconcileCaddyRoutes` once bootstrapping has succeeded or failed. */
    method Reconcile(apps: seq<App>, defaultPort: nat, root: string -> string, fails: nat -> bool, bootstrapped: bool)
      returns (synced: nat, skipped: nat, failed: nat)
      modifies this
      ensures routes == if bootstrapped then Run(old(routes), Plans(apps, Planner(defaultPort, root), fails))
                        else old(routes)
      ensures bootstrapped ==> synced + skipped + failed == |apps|
      ensures bootstrapped ==> synced == |Plans(apps, Planner(defaultPort, root), fails)|
      ensures bootstrapped ==> synced + failed == |Plans(apps, Planner(defaultPort, root), Never)|
    {
      synced, skipped, failed := 0, 0, 0;
      if !bootstrapped {
        return;
      }
      ghost var plan := Planner(defaultPort, root);
      PlansNone(apps, plan, fails);
      PlansNone(apps, plan, Never);
      for i := 0 to |apps|
        invariant routes == Run(old(routes), Plans(apps[..i], plan, fails))
        invariant synced + skipped + failed == i
        invariant synced == |Plans(apps[..i], plan, fails)|
        invariant synced + failed == |Plans(apps[..i], plan, Never)|
      {
        var skip, ok := ReconcileRow(apps, i, defaultPort, root, fails, old(routes));
        if skip {
          skipped := skipped + 1;
        } else if ok {
          synced := synced + 1;
        } else {
          failed := failed + 1;
        }
      }
      PlansWhole(apps, plan, fails);
      PlansWhole(apps, plan, Never);
    }

    /** Reconciling again, with the same answers from Caddy, leaves the very same list. */
    method ReconcileTwice(apps: seq<App>, defaultPort: nat, root: string -> string, fails: nat -> bool)
      modifies this
      ensures routes == Run(old(routes), Plans(apps, Planner(defaultPort, root), fails))
    {
      var synced, skipped, failed := Reconcile(apps, defaultPort, root, fails, true);
      synced, skipped, failed := Reconcile(apps, defaultPort, root, fails, true);
      RunTwiceIsRunOnce(old(routes), Plans(apps, Planner(defaultPort, root), fails));
    }
  }
}

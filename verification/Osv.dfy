/**
 Batched vulnerability queries (packages/app-auditor/src/osv.ts): dependencies are deduplicated, sent in
 batches, and every answer may name a further page, which is asked for in the next round.
 */
module Osv {
  import opened Wrappers
  import Text

  datatype Dependency = Dependency(ecosystem: string, name: string, version: string)

  /** An empty page token stands for none: the code tests the token for truth. */
  datatype Query = Query(dependency: Dependency, pageToken: string)

  datatype Page = Page(vulns: seq<string>, nextPageToken: string)

  /** The server's answer to one query. */
  type Server = Query -> Page

  /** One HTTP exchange: the pages in the order of the queries, or a failed status. */
  type Fetch = seq<Query> -> Result<seq<Page>, nat>

  type Results = map<string, seq<string>>

  const NUL: string := "\0"

  /** `dependencyQueryKey` */
  function Key(d: Dependency): string {
    d.ecosystem + NUL + d.name + NUL + d.version
  }

  // ----- What a dependency is due -----------------------------------------------------------------

  /** Page chains are finite: `depth` falls from each page to the next. */
  ghost predicate Finite(server: Server, depth: Query -> nat) {
    forall q :: server(q).nextPageToken != "" ==> depth(Next(server, q)) < depth(q)
  }

  function Next(server: Server, q: Query): Query {
    Query(q.dependency, server(q).nextPageToken)
  }

  /** All pages from `q` on, one after the other. */
  ghost function Pages(server: Server, depth: Query -> nat, q: Query): seq<string>
    requires Finite(server, depth)
    decreases depth(q)
  {
    server(q).vulns + Rest(server, depth, q)
  }

  /** The pages after the one that `q` asks for. */
  ghost function Rest(server: Server, depth: Query -> nat, q: Query): seq<string>
    requires Finite(server, depth)
    decreases depth(q), 0
  {
    if server(q).nextPageToken == "" then [] else
    assert depth(Next(server, q)) < depth(q);
    Pages(server, depth, Next(server, q))
  }

  // ----- Deduplication ----------------------------------------------------------------------------

  function Keys(ds: seq<Dependency>): set<string> {
    set d <- ds :: Key(d)
  }

  predicate DistinctKeys(ds: seq<Dependency>) {
    forall i, j | 0 <= i < j < |ds| :: Key(ds[i]) != Key(ds[j])
  }

  /** `d` is the first of `ds` with its key. */
  predicate IsFirst(ds: seq<Dependency>, d: Dependency) {
    exists i | 0 <= i < |ds| :: ds[i] == d && forall j | 0 <= j < i :: Key(ds[j]) != Key(d)
  }

  /** The keys of one more dependency. */
  lemma KeysSnoc(ds: seq<Dependency>, d: Dependency)
    ensures Keys(ds + [d]) == Keys(ds) + {Key(d)}
    ensures DistinctKeys(ds) && Key(d) !in Keys(ds) ==> DistinctKeys(ds + [d])
  {
    assert forall i | 0 <= i < |ds| :: ds[i] in ds && Key(ds[i]) in Keys(ds);
  }

  lemma UnseenIsFirst(ds: seq<Dependency>, i: nat)
    requires i < |ds| && Key(ds[i]) !in Keys(ds[..i])
    ensures IsFirst(ds, ds[i])
  {
    assert forall j | 0 <= j < i :: ds[j] in ds[..i] && Key(ds[j]) in Keys(ds[..i]);
  }

  /** Position `k` is the first with its key. */
  predicate KeyIsNew(ds: seq<Dependency>, k: nat)
    requires k < |ds|
  {
    forall j | 0 <= j < k :: Key(ds[j]) != Key(ds[k])
  }

  /** `deduped` is what stands at the positions `at`, and these are all whose key is new, in order. */
  ghost predicate FirstOfEach(ds: seq<Dependency>, deduped: seq<Dependency>, at: seq<nat>) {
    && |deduped| == |at|
    && (forall i, j | 0 <= i < j < |at| :: at[i] < at[j])
    && (forall i | 0 <= i < |at| :: at[i] < |ds| && deduped[i] == ds[at[i]])
    && (forall k: nat | k < |ds| :: k in at <==> KeyIsNew(ds, k))
  }

  lemma FirstOfEachSnoc(ds: seq<Dependency>, deduped: seq<Dependency>, at: seq<nat>, d: Dependency)
    requires FirstOfEach(ds, deduped, at)
    ensures if Key(d) in Keys(ds) then FirstOfEach(ds + [d], deduped, at)
            else FirstOfEach(ds + [d], deduped + [d], at + [|ds|])
  {
    var more := ds + [d];
    forall k: nat | k < |ds| ensures KeyIsNew(more, k) <==> KeyIsNew(ds, k) {
      assert forall j | 0 <= j <= k :: more[j] == ds[j];
    }
    NewKeyIff(ds, d);
  }

  lemma NewKeyIff(ds: seq<Dependency>, d: Dependency)
    ensures KeyIsNew(ds + [d], |ds|) <==> Key(d) !in Keys(ds)
  {
    var more := ds + [d];
    assert forall j | 0 <= j < |ds| :: more[j] == ds[j] && ds[j] in ds;
    if Key(d) in Keys(ds) {
      var x :| x in ds && Key(x) == Key(d);
      var j :| 0 <= j < |ds| && ds[j] == x;
      assert Key(more[j]) == Key(more[|ds|]);
    }
  }

  /** `dedupeForQuery` keeps, of each key, exactly the first dependency, in order. */
  method DedupeForQuery(ds: seq<Dependency>) returns (deduped: seq<Dependency>, ghost at: seq<nat>)
    ensures FirstOfEach(ds, deduped, at)
    ensures DistinctKeys(deduped) && Keys(deduped) == Keys(ds)
    ensures |deduped| <= |ds| && forall d <- deduped :: IsFirst(ds, d)
  {
    var seen: set<string> := {};
    deduped, at := [], [];
    for i := 0 to |ds|
      invariant seen == Keys(ds[..i]) == Keys(deduped)
      invariant DistinctKeys(deduped) && |deduped| <= i && FirstOfEach(ds[..i], deduped, at)
      invariant forall d <- deduped :: IsFirst(ds, d)
    {
      var key := Key(ds[i]);
      assert ds[..i + 1] == ds[..i] + [ds[i]];
      KeysSnoc(ds[..i], ds[i]);
      FirstOfEachSnoc(ds[..i], deduped, at, ds[i]);
      if key !in seen {
        UnseenIsFirst(ds, i);
        KeysSnoc(deduped, ds[i]);
        seen := seen + {key};
        deduped, at := deduped + [ds[i]], at + [i];
      }
    }
    assert ds[..|ds|] == ds;
  }

  // ----- One batch --------------------------------------------------------------------------------

  function QueryKeys(qs: seq<Query>): set<string> {
    set q <- qs :: Key(q.dependency)
  }

  predicate DistinctQueryKeys(qs: seq<Query>) {
    forall i, j | 0 <= i < j < |qs| :: Key(qs[i].dependency) != Key(qs[j].dependency)
  }

  function Firsts(ds: seq<Dependency>): (qs: seq<Query>)
    ensures |qs| == |ds| && forall i | 0 <= i < |ds| :: qs[i] == Query(ds[i], "")
  {
    seq(|ds|, i requires 0 <= i < |ds| => Query(ds[i], ""))
  }

  /** A missing entry of the reply counts as an empty last page. */
  function At(pages: seq<Page>, i: nat): Page {
    if i < |pages| then pages[i] else Page([], "")
  }

  /** The reply holds the server's answers position by position; it may leave out empty last pages at its end. */
  predicate Replies(pages: seq<Page>, server: Server, qs: seq<Query>) {
    forall i | 0 <= i < |qs| :: At(pages, i) == server(qs[i])
  }

  /** Every exchange that succeeds brings the server's answers. */
  ghost predicate Honest(fetch: Fetch, server: Server) {
    forall qs :: fetch(qs).Ok? ==> Replies(fetch(qs).value, server, qs)
  }

  function Got(results: Results, key: string): seq<string> {
    if key in results then results[key] else []
  }

  /** `left` is what each key of the batch is still due, and together with what it got makes `total`. */
  ghost predicate Balanced(results: Results, left: Results, total: Results) {
    left.Keys == total.Keys && forall k <- total :: Got(results, k) + left[k] == total[k]
  }

  ghost predicate Due(server: Server, depth: Query -> nat, qs: seq<Query>, left: Results)
    requires Finite(server, depth)
  {
    forall q <- qs :: Key(q.dependency) in left && left[Key(q.dependency)] == Pages(server, depth, q)
  }

  ghost predicate Settled(left: Results, open: set<string>) {
    forall k <- left :: k in open || left[k] == []
  }

  /** Adding one page moves it from what is due to what has been got. */
  lemma PageMoves(results: Results, left: Results, total: Results, k: string, vulns: seq<string>, rest: seq<string>)
    requires Balanced(results, left, total) && k in left && left[k] == vulns + rest
    ensures Balanced(results[k := Got(results, k) + vulns], left[k := rest], total)
  {
    assert Got(results, k) + (vulns + rest) == Got(results, k) + vulns + rest;
  }

  ghost predicate Shallower(depth: Query -> nat, qs: seq<Query>, bound: nat) {
    forall q <- qs :: depth(q) < bound
  }

  /** Nothing but the given keys changes. */
  predicate SameOutside(before: Results, after: Results, keys: set<string>) {
    forall k <- before :: k !in keys ==> k in after && after[k] == before[k]
  }

  /** The state of a round: what is still due before and after position `i` of the pending queries. */
  ghost predicate RoundInv(server: Server, depth: Query -> nat, todo: seq<Query>, next: seq<Query>,
                           results: Results, left: Results, total: Results)
    requires Finite(server, depth)
  {
    && Balanced(results, left, total)
    && Due(server, depth, todo, left)
    && Due(server, depth, next, left)
    && Settled(left, QueryKeys(todo) + QueryKeys(next))
    && DistinctQueryKeys(todo)
    && DistinctQueryKeys(next)
    && QueryKeys(todo) !! QueryKeys(next)
  }

  lemma TailKeys(qs: seq<Query>)
    requires qs != [] && DistinctQueryKeys(qs)
    ensures var k := Key(qs[0].dependency);
            k !in QueryKeys(qs[1..]) && QueryKeys(qs) == {k} + QueryKeys(qs[1..]) && DistinctQueryKeys(qs[1..])
  {
    assert qs == [qs[0]] + qs[1..];
  }

  lemma AppendKey(qs: seq<Query>, q: Query)
    requires DistinctQueryKeys(qs) && Key(q.dependency) !in QueryKeys(qs)
    ensures QueryKeys(qs + [q]) == QueryKeys(qs) + {Key(q.dependency)} && DistinctQueryKeys(qs + [q])
  {
    assert forall i | 0 <= i < |qs| :: qs[i] in qs && Key(qs[i].dependency) in QueryKeys(qs);
  }

  lemma OthersStayDue(server: Server, depth: Query -> nat, qs: seq<Query>, left: Results, k: string, v: seq<string>)
    requires Finite(server, depth) && Due(server, depth, qs, left) && k !in QueryKeys(qs)
    ensures Due(server, depth, qs, left[k := v])
  {
    forall q | q in qs
      ensures Key(q.dependency) != k
    {
      assert Key(q.dependency) in QueryKeys(qs);
    }
  }

  lemma RoundStep(server: Server, depth: Query -> nat, todo: seq<Query>, next: seq<Query>,
                  results: Results, left: Results, total: Results)
    requires Finite(server, depth) && todo != [] && RoundInv(server, depth, todo, next, results, left, total)
    ensures var q := todo[0];
            var k := Key(q.dependency);
            var next' := if server(q).nextPageToken == "" then next else next + [Next(server, q)];
            RoundInv(server, depth, todo[1..], next', results[k := Got(results, k) + server(q).vulns],
                     left[k := Rest(server, depth, q)], total)
  {
    var q := todo[0];
    var k, rest := Key(q.dependency), Rest(server, depth, q);
    PageMoves(results, left, total, k, server(q).vulns, rest);
    TailKeys(todo);
    OthersStayDue(server, depth, todo[1..], left, k, rest);
    OthersStayDue(server, depth, next, left, k, rest);
    if server(q).nextPageToken != "" {
      AppendKey(next, Next(server, q));
    }
  }

  lemma Advance(qs: seq<Query>, i: nat)
    requires i < |qs|
    ensures qs[i..][0] == qs[i] && qs[i..][1..] == qs[i + 1..]
    ensures QueryKeys(qs[..i + 1]) == QueryKeys(qs[..i]) + {Key(qs[i].dependency)}
  {
    assert qs[..i + 1] == qs[..i] + [qs[i]];
  }

  /** The callback of the `forEach`: an answer is added under its key, a further page is noted. */
  method TakeAnswer(q: Query, page: Page, results: Results, next: seq<Query>)
    returns (results': Results, next': seq<Query>)
    ensures results' == results[Key(q.dependency) := Got(results, Key(q.dependency)) + page.vulns]
    ensures next' == if page.nextPageToken == "" then next else next + [Query(q.dependency, page.nextPageToken)]
  {
    var key := Key(q.dependency);
    var existing := if key in results then results[key] else [];
    results' := results[key := existing + page.vulns];
    next' := next;
    if page.nextPageToken != "" {
      next' := next' + [Query(q.dependency, page.nextPageToken)];
    }
  }

  /** What a round has touched after `i` answers. */
  ghost predicate Framed(depth: Query -> nat, pending: seq<Query>, i: nat, next: seq<Query>,
                         before: Results, results: Results, keys: set<string>, bound: nat)
    requires i <= |pending|
  {
    && Shallower(depth, next, bound)
    && results.Keys == before.Keys + QueryKeys(pending[..i])
    && SameOutside(before, results, keys)
  }

  lemma FrameAdvances(server: Server, depth: Query -> nat, pending: seq<Query>, i: nat, next: seq<Query>,
                      before: Results, results: Results, keys: set<string>, bound: nat)
    requires Finite(server, depth) && i < |pending| && Shallower(depth, pending, bound + 1)
    requires Framed(depth, pending, i, next, before, results, keys, bound) && Key(pending[i].dependency) in keys
    ensures var q := pending[i];
            var k := Key(q.dependency);
            var next' := if server(q).nextPageToken == "" then next else next + [Next(server, q)];
            Framed(depth, pending, i + 1, next', before, results[k := Got(results, k) + server(q).vulns], keys, bound)
  {
    Advance(pending, i);
  }

  /** Where a round stands after `i` answers. */
  ghost predicate RoundAt(server: Server, depth: Query -> nat, pending: seq<Query>, i: nat, next: seq<Query>,
                          before: Results, results: Results, left: Results, total: Results, bound: nat)
    requires Finite(server, depth) && i <= |pending|
  {
    && RoundInv(server, depth, pending[i..], next, results, left, total)
    && Framed(depth, pending, i, next, before, results, total.Keys, bound)
  }

  lemma DueKey(server: Server, depth: Query -> nat, todo: seq<Query>, next: seq<Query>,
               results: Results, left: Results, total: Results)
    requires Finite(server, depth) && todo != [] && RoundInv(server, depth, todo, next, results, left, total)
    ensures Key(todo[0].dependency) in total.Keys
  {
  }

  lemma RoundAdvances(server: Server, depth: Query -> nat, pending: seq<Query>, i: nat, next: seq<Query>,
                      before: Results, results: Results, left: Results, total: Results, bound: nat)
    requires Finite(server, depth) && i < |pending| && Shallower(depth, pending, bound + 1)
    requires RoundAt(server, depth, pending, i, next, before, results, left, total, bound)
    ensures var q := pending[i];
            var k := Key(q.dependency);
            var next' := if server(q).nextPageToken == "" then next else next + [Next(server, q)];
            RoundAt(server, depth, pending, i + 1, next', before, results[k := Got(results, k) + server(q).vulns],
                    left[k := Rest(server, depth, q)], total, bound)
  {
    Advance(pending, i);
    RoundStep(server, depth, pending[i..], next, results, left, total);
    DueKey(server, depth, pending[i..], next, results, left, total);
    FrameAdvances(server, depth, pending, i, next, before, results, total.Keys, bound);
  }

  /** The `forEach` over one reply. */
  method TakeAnswers(pending: seq<Query>, pages: seq<Page>, before: Results, ghost server: Server,
                     ghost depth: Query -> nat, ghost due: Results, ghost total: Results, ghost bound: nat)
    returns (results: Results, next: seq<Query>, ghost left: Results)
    requires Finite(server, depth) && Shallower(depth, pending, bound + 1)
    requires Replies(pages, server, pending)
    requires RoundAt(server, depth, pending, 0, [], before, before, due, total, bound)
    ensures RoundAt(server, depth, pending, |pending|, next, before, results, left, total, bound)
    ensures next == NextQueries(server, pending)
  {
    results, next, left := before, [], due;
    for i := 0 to |pending|
      invariant RoundAt(server, depth, pending, i, next, before, results, left, total, bound)
      invariant next == NextQueries(server, pending[..i])
    {
      NextQueriesSnoc(server, pending, i);
      RoundAdvances(server, depth, pending, i, next, before, results, left, total, bound);
      left := left[Key(pending[i].dependency) := Rest(server, depth, pending[i])];
      results, next := TakeAnswer(pending[i], At(pages, i), results, next);
    }
    NextQueriesAll(server, pending);
  }

  lemma NextQueriesSnoc(server: Server, qs: seq<Query>, i: nat)
    requires i < |qs|
    ensures NextQueries(server, qs[..i + 1])
         == NextQueries(server, qs[..i]) + if server(qs[i]).nextPageToken == "" then [] else [Next(server, qs[i])]
  {
    assert qs[..i + 1][..i] == qs[..i];
  }

  lemma NextQueriesAll(server: Server, qs: seq<Query>)
    ensures NextQueries(server, qs[..|qs|]) == NextQueries(server, qs)
  {
    assert qs[..|qs|] == qs;
  }

  /** What the keys of a batch are due. */
  ghost function DueOf(server: Server, depth: Query -> nat, batch: seq<Dependency>): (due: Results)
    requires Finite(server, depth) && DistinctKeys(batch)
    ensures due.Keys == Keys(batch)
    ensures forall d <- batch :: due[Key(d)] == Pages(server, depth, Query(d, ""))
  {
    if batch == [] then map[] else
    assert batch == [batch[0]] + batch[1..];
    DueOf(server, depth, batch[1..])[Key(batch[0]) := Pages(server, depth, Query(batch[0], ""))]
  }

  ghost function TotalOf(before: Results, due: Results): Results {
    map k <- due :: Got(before, k) + due[k]
  }

  lemma FirstsKeys(batch: seq<Dependency>)
    requires DistinctKeys(batch)
    ensures QueryKeys(Firsts(batch)) == Keys(batch) && DistinctQueryKeys(Firsts(batch))
  {
    var qs := Firsts(batch);
    assert forall i | 0 <= i < |qs| :: qs[i].dependency == batch[i];
    forall d | d in batch
      ensures Key(d) in QueryKeys(qs)
    {
      var i :| 0 <= i < |batch| && batch[i] == d;
      assert qs[i] in qs && Key(qs[i].dependency) == Key(d);
    }
    forall q | q in qs
      ensures Key(q.dependency) in Keys(batch)
    {
      var i :| 0 <= i < |qs| && qs[i] == q;
      assert batch[i] in batch;
    }
  }

  lemma FirstsDue(server: Server, depth: Query -> nat, batch: seq<Dependency>)
    requires Finite(server, depth) && DistinctKeys(batch)
    ensures Due(server, depth, Firsts(batch), DueOf(server, depth, batch))
  {
    forall q | q in Firsts(batch)
      ensures q.dependency in batch && q == Query(q.dependency, "")
    {
    }
  }

  lemma RoundsBegin(server: Server, depth: Query -> nat, batch: seq<Dependency>, before: Results)
    requires Finite(server, depth) && DistinctKeys(batch)
    ensures var due := DueOf(server, depth, batch);
            RoundInv(server, depth, Firsts(batch), [], before, due, TotalOf(before, due))
    ensures QueryKeys(Firsts(batch)) == Keys(batch)
  {
    FirstsKeys(batch);
    FirstsDue(server, depth, batch);
  }

  ghost function Bound(depth: Query -> nat, qs: seq<Query>): (bound: nat)
    ensures Shallower(depth, qs, bound)
  {
    if qs == [] then 0 else
    var rest := Bound(depth, qs[1..]);
    if depth(qs[0]) < rest then rest else depth(qs[0]) + 1
  }

  /** The further pages that a round of queries leads to, in order. */
  function NextQueries(server: Server, qs: seq<Query>): (next: seq<Query>)
    ensures |next| <= |qs|
  {
    if qs == [] then [] else
    var q := qs[|qs| - 1];
    NextQueries(server, qs[..|qs| - 1]) + if server(q).nextPageToken == "" then [] else [Next(server, q)]
  }

  /** The requests of a batch: first pages, and then in each round the further pages of the round before. */
  predicate Rounds(server: Server, batch: seq<Dependency>, sent: seq<seq<Query>>) {
    && (sent != [] ==> sent[0] == Firsts(batch))
    && (forall i | 0 < i < |sent| :: sent[i] == NextQueries(server, sent[i - 1]))
    && (forall i | 0 <= i < |sent| :: 0 < |sent[i]| <= |batch|)
  }

  /** What the next request after these is; none once it is empty. */
  function NextRequest(server: Server, batch: seq<Dependency>, sent: seq<seq<Query>>): seq<Query> {
    if sent == [] then Firsts(batch) else NextQueries(server, sent[|sent| - 1])
  }

  /** Success means that no request that was sent failed, an error that the last one did and no other. */
  predicate Reports(fetch: Fetch, sent: seq<seq<Query>>, r: Result<Results, nat>) {
    && (forall i | 0 <= i < |sent| - 1 :: fetch(sent[i]).Ok?)
    && (if r.Ok? then sent == [] || fetch(sent[|sent| - 1]).Ok?
        else sent != [] && fetch(sent[|sent| - 1]) == Err(r.error))
  }

  /** A finished round, with the queries it noted as the next one's pending list. */
  lemma RoundEnds(server: Server, depth: Query -> nat, pending: seq<Query>, next: seq<Query>,
                  before: Results, results: Results, left: Results, total: Results, bound: nat)
    requires Finite(server, depth)
    requires RoundAt(server, depth, pending, |pending|, next, before, results, left, total, bound)
    ensures RoundInv(server, depth, next, [], results, left, total) && Shallower(depth, next, bound)
    ensures results.Keys == before.Keys + QueryKeys(pending) && SameOutside(before, results, total.Keys)
  {
    assert pending[|pending|..] == [];
    assert pending[..|pending|] == pending;
    assert QueryKeys([]) == {};
  }

  lemma RoundStarts(server: Server, depth: Query -> nat, pending: seq<Query>, results: Results, left: Results,
                    total: Results, bound: nat)
    requires Finite(server, depth) && RoundInv(server, depth, pending, [], results, left, total)
    ensures RoundAt(server, depth, pending, 0, [], results, results, left, total, bound)
    ensures QueryKeys(pending) <= total.Keys
  {
    assert pending[0..] == pending;
    assert QueryKeys(pending[..0]) == {};
  }

  /** What the rounds of a batch have touched so far: after the first, all keys are present. */
  predicate BatchFrame(batch: seq<Dependency>, before: Results, pending: seq<Query>, results: Results) {
    && before.Keys <= results.Keys <= before.Keys + Keys(batch)
    && (pending == Firsts(batch) || Keys(batch) <= results.Keys)
    && SameOutside(before, results, Keys(batch))
  }

  /** Between two rounds of a batch. */
  ghost predicate BatchInv(server: Server, depth: Query -> nat, batch: seq<Dependency>, before: Results,
                           pending: seq<Query>, results: Results, left: Results, bound: nat)
    requires Finite(server, depth) && DistinctKeys(batch)
  {
    var total := TotalOf(before, DueOf(server, depth, batch));
    && RoundInv(server, depth, pending, [], results, left, total)
    && Shallower(depth, pending, bound)
    && BatchFrame(batch, before, pending, results)
  }

  lemma BatchFrameAdvances(batch: seq<Dependency>, before: Results, pending: seq<Query>, results: Results,
                           pending': seq<Query>, results': Results)
    requires BatchFrame(batch, before, pending, results)
    requires QueryKeys(Firsts(batch)) == Keys(batch) && QueryKeys(pending) <= Keys(batch)
    requires results'.Keys == results.Keys + QueryKeys(pending) && SameOutside(results, results', Keys(batch))
    ensures BatchFrame(batch, before, pending', results')
  {
  }

  lemma BatchAdvances(server: Server, depth: Query -> nat, batch: seq<Dependency>, before: Results,
                      pending: seq<Query>, results: Results, left: Results,
                      pending': seq<Query>, results': Results, left': Results, bound: nat)
    requires Finite(server, depth) && DistinctKeys(batch)
    requires BatchInv(server, depth, batch, before, pending, results, left, bound + 1)
    requires RoundAt(server, depth, pending, |pending|, pending', results, results', left',
                     TotalOf(before, DueOf(server, depth, batch)), bound)
    ensures BatchInv(server, depth, batch, before, pending', results', left', bound)
  {
    var total := TotalOf(before, DueOf(server, depth, batch));
    RoundStarts(server, depth, pending, results, left, total, bound);
    RoundEnds(server, depth, pending, pending', results, results', left', total, bound);
    RoundsBegin(server, depth, batch, before);
    BatchFrameAdvances(batch, before, pending, results, pending', results');
  }

  lemma BatchDoneKeys(batch: seq<Dependency>, before: Results, results: Results)
    requires BatchFrame(batch, before, [], results)
    ensures results.Keys == before.Keys + Keys(batch)
  {
    assert batch == [] ==> Keys(batch) == {};
  }

  lemma BatchDoneValues(server: Server, depth: Query -> nat, batch: seq<Dependency>, before: Results,
                        results: Results, left: Results, bound: nat)
    requires Finite(server, depth) && DistinctKeys(batch)
    requires BatchInv(server, depth, batch, before, [], results, left, bound)
    ensures forall d <- batch :: Got(results, Key(d)) == Got(before, Key(d)) + Pages(server, depth, Query(d, ""))
  {
    NothingLeft(server, depth, results, left, TotalOf(before, DueOf(server, depth, batch)));
    TotalValues(server, depth, batch, before, results);
  }

  lemma TotalValues(server: Server, depth: Query -> nat, batch: seq<Dependency>, before: Results, results: Results)
    requires Finite(server, depth) && DistinctKeys(batch)
    requires var total := TotalOf(before, DueOf(server, depth, batch));
             forall k <- total :: Got(results, k) == total[k]
    ensures forall d <- batch :: Got(results, Key(d)) == Got(before, Key(d)) + Pages(server, depth, Query(d, ""))
  {
    var due := DueOf(server, depth, batch);
    forall d | d in batch
      ensures Got(results, Key(d)) == Got(before, Key(d)) + Pages(server, depth, Query(d, ""))
    {
      assert Key(d) in due && due[Key(d)] == Pages(server, depth, Query(d, ""));
      assert Key(d) in TotalOf(before, due);
    }
  }

  lemma NothingLeft(server: Server, depth: Query -> nat, results: Results, left: Results, total: Results)
    requires Finite(server, depth) && RoundInv(server, depth, [], [], results, left, total)
    ensures forall k <- total :: Got(results, k) == total[k]
  {
    forall k | k in total
      ensures Got(results, k) == total[k]
    {
      assert k in left && left[k] == [];
      assert Got(results, k) + left[k] == Got(results, k);
    }
  }

  /** The requests so far, all of them answered. */
  predicate SentSoFar(fetch: Fetch, server: Server, batch: seq<Dependency>, sent: seq<seq<Query>>) {
    Rounds(server, batch, sent) && forall i | 0 <= i < |sent| :: fetch(sent[i]).Ok?
  }

  lemma SendNext(fetch: Fetch, server: Server, batch: seq<Dependency>, sent: seq<seq<Query>>, request: seq<Query>)
    requires SentSoFar(fetch, server, batch, sent) && request == NextRequest(server, batch, sent) != []
    ensures Rounds(server, batch, sent + [request])
    ensures NextRequest(server, batch, sent + [request]) == NextQueries(server, request)
    ensures fetch(request).Ok? ==> SentSoFar(fetch, server, batch, sent + [request])
    ensures fetch(request).Err? ==>
              Reports(fetch, sent + [request], Err(fetch(request).error))
  {
  }

  lemma AllSent(fetch: Fetch, server: Server, batch: seq<Dependency>, sent: seq<seq<Query>>, results: Results)
    requires SentSoFar(fetch, server, batch, sent)
    ensures Reports(fetch, sent, Ok(results))
  {
  }

  /** `queryBatchWithPagination` ends, and gives every key of the batch all its pages in order. */
  method QueryBatchWithPagination(batch: seq<Dependency>, before: Results, fetch: Fetch,
                                  ghost server: Server, ghost depth: Query -> nat)
    returns (r: Result<Results, nat>, ghost sent: seq<seq<Query>>)
    requires Finite(server, depth) && Honest(fetch, server) && DistinctKeys(batch)
    ensures Rounds(server, batch, sent) && Reports(fetch, sent, r)
    ensures r.Ok? ==> NextRequest(server, batch, sent) == []
    ensures r.Ok? ==> r.value.Keys == before.Keys + Keys(batch) && SameOutside(before, r.value, Keys(batch))
    ensures r.Ok? ==>
              forall d <- batch :: Got(r.value, Key(d)) == Got(before, Key(d)) + Pages(server, depth, Query(d, ""))
  {
    var pending, results := Firsts(batch), before;
    ghost var left, bound := DueOf(server, depth, batch), Bound(depth, pending);
    RoundsBegin(server, depth, batch, before);
    sent := [];
    while |pending| > 0
      invariant BatchInv(server, depth, batch, before, pending, results, left, bound)
      invariant SentSoFar(fetch, server, batch, sent) && pending == NextRequest(server, batch, sent)
      decreases bound
    {
      var reply := fetch(pending);
      SendNext(fetch, server, batch, sent, pending);
      sent := sent + [pending];
      if reply.Err? {
        r := Err(reply.error);
        return;
      }
      results, pending, left, bound :=
        NextRound(batch, before, pending, reply.value, results, server, depth, left, bound);
    }
    AllSent(fetch, server, batch, sent, results);
    BatchDoneKeys(batch, before, results);
    BatchDoneValues(server, depth, batch, before, results, left, bound);
    r := Ok(results);
  }

  /** One turn of the loop, after a reply. */
  method NextRound(ghost batch: seq<Dependency>, ghost before: Results, pending: seq<Query>, pages: seq<Page>,
                   results: Results, ghost server: Server, ghost depth: Query -> nat, ghost left: Results,
                   ghost bound: nat)
    returns (results': Results, pending': seq<Query>, ghost left': Results, ghost bound': nat)
    requires Finite(server, depth) && DistinctKeys(batch) && pending != []
    requires Replies(pages, server, pending)
    requires BatchInv(server, depth, batch, before, pending, results, left, bound)
    ensures BatchInv(server, depth, batch, before, pending', results', left', bound') && bound' < bound
    ensures pending' == NextQueries(server, pending)
  {
    ghost var total := TotalOf(before, DueOf(server, depth, batch));
    assert pending[0] in pending;
    bound' := bound - 1;
    RoundStarts(server, depth, pending, results, left, total, bound');
    results', pending', left' := TakeAnswers(pending, pages, results, server, depth, left, total, bound');
    BatchAdvances(server, depth, batch, before, pending, results, left, pending', results', left', bound');
  }

  // ----- All batches ------------------------------------------------------------------------------

  /** Exactly the keys of `ds`, each with all pages of its dependency. */
  ghost predicate Answers(server: Server, depth: Query -> nat, ds: seq<Dependency>, results: Results)
    requires Finite(server, depth)
  {
    && results.Keys == Keys(ds)
    && forall d <- ds :: Got(results, Key(d)) == Pages(server, depth, Query(d, ""))
  }

  lemma KeysOfConcat(a: seq<Dependency>, b: seq<Dependency>)
    requires DistinctKeys(a + b)
    ensures Keys(a + b) == Keys(a) + Keys(b) && Keys(a) !! Keys(b) && DistinctKeys(a) && DistinctKeys(b)
  {
    assert forall i | 0 <= i < |a| :: (a + b)[i] == a[i];
    assert forall i | 0 <= i < |b| :: (a + b)[|a| + i] == b[i];
  }

  lemma BatchAnswers(server: Server, depth: Query -> nat, a: seq<Dependency>, b: seq<Dependency>,
                     before: Results, after: Results)
    requires Finite(server, depth) && DistinctKeys(a + b) && Answers(server, depth, a, before)
    requires after.Keys == before.Keys + Keys(b) && SameOutside(before, after, Keys(b))
    requires forall d <- b :: Got(after, Key(d)) == Got(before, Key(d)) + Pages(server, depth, Query(d, ""))
    ensures Answers(server, depth, a + b, after)
  {
    KeysOfConcat(a, b);
    forall d | d in a + b
      ensures Got(after, Key(d)) == Pages(server, depth, Query(d, ""))
    {
      if d in a {
        assert Key(d) in Keys(a);
      } else {
        assert Key(d) in Keys(b);
        assert Got(before, Key(d)) == [];
      }
    }
  }

  lemma Slice(unique: seq<Dependency>, offset: nat, end: nat)
    requires DistinctKeys(unique) && offset <= end <= |unique|
    ensures unique[..offset] + unique[offset..end] == unique[..end]
    ensures DistinctKeys(unique[..offset] + unique[offset..end]) && DistinctKeys(unique[offset..end])
  {
    assert unique[..offset] + unique[offset..end] == unique[..end];
    KeysOfConcat(unique[..offset], unique[offset..end]);
  }

  lemma FirstsAgree(ds: seq<Dependency>, a: Dependency, b: Dependency)
    requires IsFirst(ds, a) && IsFirst(ds, b) && Key(a) == Key(b)
    ensures a == b
  {
    var i :| 0 <= i < |ds| && ds[i] == a && forall j | 0 <= j < i :: Key(ds[j]) != Key(a);
    var k :| 0 <= k < |ds| && ds[k] == b && forall j | 0 <= j < k :: Key(ds[j]) != Key(b);
    assert i == k;
  }

  lemma UniqueAnswers(server: Server, depth: Query -> nat, ds: seq<Dependency>, unique: seq<Dependency>,
                      results: Results)
    requires Finite(server, depth) && Answers(server, depth, unique, results)
    requires Keys(unique) == Keys(ds) && forall d <- unique :: IsFirst(ds, d)
    ensures results.Keys == Keys(ds)
    ensures forall d <- ds :: IsFirst(ds, d) || Distinguished(ds, d) ==>
              Got(results, Key(d)) == Pages(server, depth, Query(d, ""))
  {
    forall d | d in ds && (IsFirst(ds, d) || Distinguished(ds, d))
      ensures Got(results, Key(d)) == Pages(server, depth, Query(d, ""))
    {
      assert Key(d) in Keys(ds);
      var u :| u in unique && Key(u) == Key(d);
      assert IsFirst(ds, u);
      if IsFirst(ds, d) {
        FirstsAgree(ds, u, d);
      } else {
        assert u in ds;
        if NulFree(d.name) && NulFree(d.version) {
          KeyIdentifies(d, u);
        } else {
          KeyIsInjective(u, d);
        }
      }
    }
  }

  predicate Sized(sent: seq<seq<Query>>, size: nat) {
    forall i | 0 <= i < |sent| :: 0 < |sent[i]| <= size
  }

  /** Requests of earlier batches, all answered. */
  predicate SentFine(fetch: Fetch, sent: seq<seq<Query>>, size: nat) {
    Sized(sent, size) && forall i | 0 <= i < |sent| :: fetch(sent[i]).Ok?
  }

  lemma SentMore(fetch: Fetch, sent: seq<seq<Query>>, more: seq<seq<Query>>, size: nat, r: Result<Results, nat>)
    requires SentFine(fetch, sent, size) && Sized(more, size) && Reports(fetch, more, r)
    ensures Sized(sent + more, size) && Reports(fetch, sent + more, r)
    ensures r.Ok? ==> SentFine(fetch, sent + more, size)
  {
  }

  lemma FineReports(fetch: Fetch, sent: seq<seq<Query>>, size: nat, results: Results)
    requires SentFine(fetch, sent, size)
    ensures Reports(fetch, sent, Ok(results))
  {
  }

  /**
   `queryOsvForDependencies`: whatever the batch size, the result has exactly the keys of the
   dependencies, and under each key the first dependency with that key finds its own pages, in order,
   as if it had been queried alone.
   */
  method QueryOsvForDependencies(ds: seq<Dependency>, batchSize: nat, fetch: Fetch,
                                 ghost server: Server, ghost depth: Query -> nat)
    returns (r: Result<Results, nat>, ghost sent: seq<seq<Query>>)
    requires Finite(server, depth) && Honest(fetch, server) && (batchSize >= 1 || ds == [])
    ensures Reports(fetch, sent, r) && Sized(sent, batchSize)
    ensures r.Ok? ==> r.value.Keys == Keys(ds)
    ensures r.Ok? ==> forall d <- ds :: IsFirst(ds, d) ==> Got(r.value, Key(d)) == Pages(server, depth, Query(d, ""))
    ensures r.Ok? ==>
              forall d <- ds :: Distinguished(ds, d) ==> Got(r.value, Key(d)) == Pages(server, depth, Query(d, ""))
  {
    var unique, _ := DedupeForQuery(ds);
    var results: Results := map[];
    var offset := 0;
    sent := [];
    while offset < |unique|
      invariant batchSize >= 1 || unique == []
      invariant offset <= |unique| && Answers(server, depth, unique[..offset], results)
      invariant SentFine(fetch, sent, batchSize)
    {
      var end := if offset + batchSize < |unique| then offset + batchSize else |unique|;
      var batch := unique[offset..end];
      Slice(unique, offset, end);
      var reply;
      ghost var requests;
      reply, requests := QueryBatchWithPagination(batch, results, fetch, server, depth);
      SentMore(fetch, sent, requests, batchSize, reply);
      sent := sent + requests;
      if reply.Err? {
        r := Err(reply.error);
        return;
      }
      BatchAnswers(server, depth, unique[..offset], batch, results, reply.value);
      results, offset := reply.value, end;
    }
    assert unique[..|unique|] == unique;
    UniqueAnswers(server, depth, ds, unique, results);
    FineReports(fetch, sent, batchSize, results);
    r := Ok(results);
  }

  // ----- Keys -------------------------------------------------------------------------------------

  predicate NulFree(s: string) {
    '\0' !in s
  }

  /**
   Within `ds` the key of `d` is its own: ecosystems, which are four fixed words, hold no NUL, and either
   the name and version of `d` hold none, or no name does.
   */
  predicate Distinguished(ds: seq<Dependency>, d: Dependency) {
    && (forall e <- ds :: NulFree(e.ecosystem))
    && ((NulFree(d.name) && NulFree(d.version)) || forall e <- ds :: NulFree(e.name))
  }

  lemma SplitAtNul(a: string, x: string, b: string, y: string)
    requires '\0' !in a && '\0' !in b && a + NUL + x == b + NUL + y
    ensures a == b && x == y
  {
    Text.IndexAfter(a, '\0', x);
    Text.IndexAfter(b, '\0', y);
    assert (a + NUL + x)[..|a|] == a && (b + NUL + y)[..|b|] == b;
    assert (a + NUL + x)[|a| + 1..] == x && (b + NUL + y)[|b| + 1..] == y;
  }

  lemma SplitEcosystem(a: Dependency, b: Dependency)
    requires NulFree(a.ecosystem) && NulFree(b.ecosystem) && Key(a) == Key(b)
    ensures a.ecosystem == b.ecosystem && a.name + NUL + a.version == b.name + NUL + b.version
  {
    assert Key(a) == a.ecosystem + NUL + (a.name + NUL + a.version);
    assert Key(b) == b.ecosystem + NUL + (b.name + NUL + b.version);
    SplitAtNul(a.ecosystem, a.name + NUL + a.version, b.ecosystem, b.name + NUL + b.version);
  }

  /** Without NUL in ecosystem and name, the key tells two dependencies apart. */
  lemma KeyIsInjective(a: Dependency, b: Dependency)
    requires NulFree(a.ecosystem) && NulFree(b.ecosystem) && NulFree(a.name) && NulFree(b.name) && Key(a) == Key(b)
    ensures a == b
  {
    SplitEcosystem(a, b);
    SplitAtNul(a.name, a.version, b.name, b.version);
  }

  /** A dependency without NUL shares its key with no other, whatever the other's name and version hold. */
  lemma KeyIdentifies(d: Dependency, e: Dependency)
    requires NulFree(d.ecosystem) && NulFree(e.ecosystem) && Key(d) == Key(e)
    requires NulFree(d.name) && NulFree(d.version)
    ensures d == e
  {
    SplitEcosystem(d, e);
    var s := d.name + NUL + d.version;
    var n := |e.name|;
    assert (e.name + NUL + e.version)[n] == '\0';
    assert s[n] == '\0' && n == |d.name|;
    assert s[..n] == d.name && (e.name + NUL + e.version)[..n] == e.name;
    SplitAtNul(d.name, d.version, e.name, e.version);
  }

  lemma SplitText(s: string) returns (a: string, b: string)
    requires !NulFree(s)
    ensures s == a + NUL + b
  {
    var i := Text.IndexOf(s, '\0');
    a, b := s[..i], s[i + 1..];
  }

  /** A NUL in the name, or in the version, can be taken for a separator. */
  lemma KeysCanCollide(ecosystem: string, a: string, b: string, c: string)
    ensures Key(Dependency(ecosystem, a + NUL + b, c)) == Key(Dependency(ecosystem, a, b + NUL + c))
    ensures Dependency(ecosystem, a + NUL + b, c) != Dependency(ecosystem, a, b + NUL + c)
  {
    assert ecosystem + NUL + (a + NUL + b) + NUL + c == ecosystem + NUL + a + NUL + (b + NUL + c);
    assert |a + NUL + b| > |a|;
  }

  /**
   Exactly which dependencies have their key to themselves: those with no NUL in name and version.
   */
  lemma KeyIdentifiesIff(d: Dependency)
    requires NulFree(d.ecosystem)
    ensures (forall e: Dependency | NulFree(e.ecosystem) && Key(e) == Key(d) :: e == d)
       <==> NulFree(d.name) && NulFree(d.version)
  {
    if NulFree(d.name) && NulFree(d.version) {
      forall e: Dependency | NulFree(e.ecosystem) && Key(e) == Key(d)
        ensures e == d
      {
        KeyIdentifies(d, e);
      }
    } else if !NulFree(d.name) {
      var a, b := SplitText(d.name);
      KeysCanCollide(d.ecosystem, a, b, d.version);
      assert Key(Dependency(d.ecosystem, a, b + NUL + d.version)) == Key(d);
    } else {
      var b, c := SplitText(d.version);
      KeysCanCollide(d.ecosystem, d.name, b, c);
      assert Key(Dependency(d.ecosystem, d.name + NUL + b, c)) == Key(d);
    }
  }
}

/**
 The adapter that turns a gRPC stream's events into an async iterator
 (`streamToAsyncIterable` in apps/api/src/agent/wrapper.ts).

 Event handlers and `next()` share a queue, one `resolveNext` slot and a `finished` flag. A call of
 `next()` that finds nothing suspends; it goes on in a later step once its promise has been resolved.
 */
module EventQueue {
  import opened Wrappers

  /** What the stream emits. */
  datatype Item<T> = Data(value: T) | End | Failure(code: int)

  /** How a call of `next()` ends. */
  datatype Outcome<T> = Value(value: T) | Done | Thrown(code: int)

  /** `Waiting`: suspended. `Woken`: its promise is resolved, the loop test is still to be made. */
  datatype Phase = Waiting | Woken | Returned

  /** The three shared variables, the calls of `next()`, and what has happened so far. */
  datatype State<T> = State(
    queue: seq<Item<T>>,
    resolveNext: Option<nat>,
    finished: bool,
    callers: map<nat, Phase>,
    emitted: seq<Item<T>>,
    shifted: nat,
    log: seq<Outcome<T>>)

  datatype Event<T> = Emit(item: Item<T>) | Call(c: nat) | Resume(c: nat)

  function Start<T>(): State<T> {
    State([], None, false, map[], [], 0, [])
  }

  function OutcomeOf<T>(item: Item<T>): Outcome<T> {
    match item
    case Data(value) => Value(value)
    case End => Done
    case Failure(code) => Thrown(code)
  }

  predicate Pending(p: Phase) {
    p != Returned
  }

  predicate Enabled<T>(s: State<T>, e: Event<T>) {
    match e
    case Emit(_) => true
    case Call(c) => c !in s.callers
    case Resume(c) => c in s.callers && s.callers[c] == Woken
  }

  /** An event handler: push, then wake whoever is in the slot. */
  function OnEvent<T>(s: State<T>, item: Item<T>): State<T> {
    s.(queue := s.queue + [item],
       finished := s.finished || !item.Data?,
       resolveNext := None,
       callers := if s.resolveNext.Some? then s.callers[s.resolveNext.value := Woken] else s.callers,
       emitted := s.emitted + [item])
  }

  /** The loop test of `next()` and what follows it. */
  function Proceed<T>(s: State<T>, c: nat): State<T> {
    if s.queue == [] && !s.finished then
      s.(resolveNext := Some(c), callers := s.callers[c := Waiting])
    else if s.queue == [] then
      s.(callers := s.callers[c := Returned], log := s.log + [Done])
    else
      s.(queue := s.queue[1..],
         callers := s.callers[c := Returned],
         shifted := s.shifted + 1,
         log := s.log + [OutcomeOf(s.queue[0])])
  }

  function Apply<T>(s: State<T>, e: Event<T>): State<T>
    requires Enabled(s, e)
  {
    match e
    case Emit(item) => OnEvent(s, item)
    case Call(c) => Proceed(s, c)
    case Resume(c) => Proceed(s, c)
  }

  ghost predicate IsRun<T>(run: seq<State<T>>, events: seq<Event<T>>) {
    && |run| == |events| + 1
    && run[0] == Start()
    && forall i | 0 <= i < |events| :: Enabled(run[i], events[i]) && run[i + 1] == Apply(run[i], events[i])
  }

  // ----- Order ------------------------------------------------------------------------------------

  function Outcomes<T>(items: seq<Item<T>>): (r: seq<Outcome<T>>)
    ensures |r| == |items|
    ensures forall i | 0 <= i < |items| :: r[i] == OutcomeOf(items[i])
  {
    seq(|items|, i requires 0 <= i < |items| => OutcomeOf(items[i]))
  }

  /** A stream that says nothing after its end or its error. */
  predicate StopsAtEnd<T>(items: seq<Item<T>>) {
    forall i | 0 <= i < |items| - 1 :: items[i].Data?
  }

  /** The items taken so far and those still queued are the emitted ones, in order. */
  ghost predicate OrderInv<T>(s: State<T>) {
    && s.shifted <= |s.emitted|
    && s.queue == s.emitted[s.shifted..]
    && (s.finished <==> exists item <- s.emitted :: !item.Data?)
  }

  /** Besides the outcomes of the items taken, only `Done` is returned, and only once all are taken. */
  ghost predicate LogInv<T>(s: State<T>) {
    && s.shifted <= |s.emitted|
    && s.shifted <= |s.log|
    && s.log[..s.shifted] == Outcomes(s.emitted[..s.shifted])
    && (forall i | s.shifted <= i < |s.log| :: s.log[i] == Done)
    && (|s.log| > s.shifted ==> s.finished && s.shifted == |s.emitted|)
  }

  lemma EmitKeepsOrder<T>(s: State<T>, item: Item<T>)
    requires OrderInv(s)
    ensures OrderInv(OnEvent(s, item))
  {
    var s' := OnEvent(s, item);
    assert s'.emitted[s.shifted..] == s.emitted[s.shifted..] + [item];
    if s.finished {
      var x :| x in s.emitted && !x.Data?;
      assert x in s'.emitted;
    }
    if !item.Data? {
      assert s'.emitted[|s.emitted|] == item;
    }
    forall x | x in s'.emitted && !x.Data?
      ensures s'.finished
    {
      assert x in s.emitted || x == item;
    }
  }

  lemma ProceedKeepsOrder<T>(s: State<T>, c: nat)
    requires OrderInv(s)
    ensures OrderInv(Proceed(s, c))
  {
    if s.queue != [] {
      assert s.emitted[s.shifted..][1..] == s.emitted[s.shifted + 1..];
    }
  }

  lemma ProceedKeepsLog<T>(s: State<T>, c: nat)
    requires OrderInv(s) && LogInv(s) && (|s.log| > s.shifted ==> s.queue == [])
    ensures LogInv(Proceed(s, c))
  {
    var s' := Proceed(s, c);
    if s.queue != [] {
      assert |s.log| == s.shifted;
      assert s.queue[0] == s.emitted[s.shifted];
      assert s'.emitted[..s'.shifted] == s.emitted[..s.shifted] + [s.queue[0]];
      assert s'.log[..s'.shifted] == s'.log;
      assert s.log == s.log[..s.shifted];
    } else {
      assert s'.log[..s.shifted] == s.log[..s.shifted];
    }
  }

  lemma EmitKeepsLog<T>(s: State<T>, item: Item<T>)
    requires OrderInv(s) && LogInv(s) && StopsAtEnd(s.emitted + [item])
    ensures LogInv(OnEvent(s, item))
  {
    var s' := OnEvent(s, item);
    assert s'.emitted[..s.shifted] == s.emitted[..s.shifted];
    assert forall i | 0 <= i < |s.emitted| :: s.emitted[i] == s'.emitted[i] && s.emitted[i].Data?;
  }

  lemma {:induction false} RunKeepsOrder<T>(run: seq<State<T>>, events: seq<Event<T>>, i: nat)
    requires IsRun(run, events) && i < |run|
    ensures OrderInv(run[i])
  {
    if i > 0 {
      RunKeepsOrder(run, events, i - 1);
      assert run[i] == Apply(run[i - 1], events[i - 1]);
      match events[i - 1]
      case Emit(item) => EmitKeepsOrder(run[i - 1], item);
      case Call(c) => ProceedKeepsOrder(run[i - 1], c);
      case Resume(c) => ProceedKeepsOrder(run[i - 1], c);
    }
  }

  lemma EmittedGrows<T>(run: seq<State<T>>, events: seq<Event<T>>, i: nat)
    requires IsRun(run, events) && i < |events|
    ensures run[i].emitted <= run[i + 1].emitted
  {
    assert run[i + 1] == Apply(run[i], events[i]);
  }

  /**
   Whatever the interleaving and however many calls are outstanding: the calls return the data emitted
   before them in order and without gaps, the end or the error only after all earlier data, and after
   that nothing but `done`.
   */
  lemma {:induction false} ReturnsPrefixInOrder<T>(run: seq<State<T>>, events: seq<Event<T>>, i: nat)
    requires IsRun(run, events) && i < |run| && StopsAtEnd(run[i].emitted)
    ensures LogInv(run[i])
  {
    if i > 0 {
      var s, s' := run[i - 1], run[i];
      EmittedGrows(run, events, i - 1);
      assert forall k | 0 <= k < |s.emitted| :: s.emitted[k] == s'.emitted[k];
      ReturnsPrefixInOrder(run, events, i - 1);
      RunKeepsOrder(run, events, i - 1);
      match events[i - 1]
      case Emit(item) => EmitKeepsLog(s, item);
      case Call(c) => ProceedKeepsLog(s, c);
      case Resume(c) => ProceedKeepsLog(s, c);
    }
  }

  predicate AllValues<T>(log: seq<Outcome<T>>) {
    forall i | 0 <= i < |log| :: log[i].Value?
  }

  /** Up to and including the first `done` or throw, the calls return what was emitted, item by item. */
  ghost predicate ConsumerInv<T>(s: State<T>) {
    && (forall k | 0 <= k < |s.log| && AllValues(s.log[..k]) ::
          k < |s.emitted| && s.log[k] == OutcomeOf(s.emitted[k]))
    && (AllValues(s.log) ==> |s.log| == s.shifted)
  }

  /** As long as only values have been returned, a finished stream still has its last item queued. */
  lemma TerminalStillQueued<T>(s: State<T>)
    requires OrderInv(s) && ConsumerInv(s) && AllValues(s.log) && s.finished
    ensures s.queue != []
  {
    var x :| x in s.emitted && !x.Data?;
    var m :| 0 <= m < |s.emitted| && s.emitted[m] == x;
    if m < s.shifted {
      assert AllValues(s.log[..m]);
      assert false;
    }
  }

  lemma ProceedKeepsConsumer<T>(s: State<T>, c: nat)
    requires OrderInv(s) && ConsumerInv(s)
    ensures ConsumerInv(Proceed(s, c))
  {
    var s', n := Proceed(s, c), |s.log|;
    if AllValues(s.log) && s.finished {
      TerminalStillQueued(s);
    }
    forall k | 0 <= k < |s'.log| && AllValues(s'.log[..k])
      ensures k < |s'.emitted| && s'.log[k] == OutcomeOf(s'.emitted[k])
    {
      if k < n {
        assert s'.log[..k] == s.log[..k];
      } else {
        assert s'.log[..n] == s.log;
        assert s.queue[0] == s.emitted[s.shifted];
      }
    }
    if AllValues(s'.log) {
      assert forall i | 0 <= i < n :: s.log[i] == s'.log[i];
    }
  }

  /**
   For any interleaving of data, end and error events, also ones after an end: a consumer that stops at
   the first `done` or throw has received exactly the items emitted up to that point, in order.
   */
  lemma {:induction false} ConsumerSeesStream<T>(run: seq<State<T>>, events: seq<Event<T>>, i: nat)
    requires IsRun(run, events) && i < |run|
    ensures ConsumerInv(run[i])
  {
    if i > 0 {
      ConsumerSeesStream(run, events, i - 1);
      RunKeepsOrder(run, events, i - 1);
      assert run[i] == Apply(run[i - 1], events[i - 1]);
      match events[i - 1]
      case Emit(item) =>
        assert forall k | 0 <= k < |run[i - 1].emitted| :: run[i].emitted[k] == run[i - 1].emitted[k];
      case Call(c) => ProceedKeepsConsumer(run[i - 1], c);
      case Resume(c) => ProceedKeepsConsumer(run[i - 1], c);
    }
  }

  // ----- Wake-ups -----------------------------------------------------------------------------------

  /** Nobody calls `next()` while an earlier call is still open. */
  ghost predicate OneAtATime<T>(run: seq<State<T>>, events: seq<Event<T>>)
    requires IsRun(run, events)
  {
    forall i | 0 <= i < |events| && events[i].Call? :: forall c <- run[i].callers :: !Pending(run[i].callers[c])
  }

  /**
   A suspended call sits in the slot and there is nothing to return; a woken one has something to
   return; and at most one call is open.
   */
  ghost predicate WakeInv<T>(s: State<T>) {
    && (forall c | c in s.callers && s.callers[c] == Waiting ::
          s.resolveNext == Some(c) && s.queue == [] && !s.finished)
    && (forall c | c in s.callers && s.callers[c] == Woken :: s.queue != [] || s.finished)
    && (forall c, d | c in s.callers && d in s.callers && c != d ::
          !Pending(s.callers[c]) || !Pending(s.callers[d]))
    && (s.resolveNext.Some? ==> s.resolveNext.value in s.callers && s.callers[s.resolveNext.value] == Waiting)
  }

  lemma StepKeepsWake<T>(s: State<T>, e: Event<T>)
    requires WakeInv(s) && Enabled(s, e)
    requires e.Call? ==> forall c <- s.callers :: !Pending(s.callers[c])
    ensures WakeInv(Apply(s, e))
  {
  }

  lemma {:induction false} RunKeepsWake<T>(run: seq<State<T>>, events: seq<Event<T>>, i: nat)
    requires IsRun(run, events) && OneAtATime(run, events) && i < |run|
    ensures WakeInv(run[i])
  {
    if i > 0 {
      RunKeepsWake(run, events, i - 1);
      StepKeepsWake(run[i - 1], events[i - 1]);
    }
  }

  /**
   No lost wake-up: with one call open at a time, a suspended call is waiting only because nothing has
   been emitted that it could return; the next event wakes it, and once woken it returns without
   suspending again.
   */
  lemma NoLostWakeup<T>(run: seq<State<T>>, events: seq<Event<T>>, i: nat, c: nat)
    requires IsRun(run, events) && OneAtATime(run, events) && i < |run| && c in run[i].callers
    ensures run[i].callers[c] == Waiting ==> run[i].shifted == |run[i].emitted| && !run[i].finished
    ensures i < |events| && run[i].callers[c] == Waiting && events[i].Emit? ==>
              c in run[i + 1].callers && run[i + 1].callers[c] == Woken
    ensures i < |events| && events[i] == Resume(c) ==>
              c in run[i + 1].callers && run[i + 1].callers[c] == Returned
  {
    RunKeepsWake(run, events, i);
    RunKeepsOrder(run, events, i);
    if i < |events| {
      assert run[i + 1] == Apply(run[i], events[i]);
    }
  }

  // ----- Why one call at a time ----------------------------------------------------------------------

  /** Suspended, and no longer in the slot. */
  predicate Stranded<T>(s: State<T>, c: nat) {
    c in s.callers && s.callers[c] == Waiting && s.resolveNext != Some(c)
  }

  /** A stranded call never returns, whatever happens. */
  lemma {:induction false} StrandedForever<T>(run: seq<State<T>>, events: seq<Event<T>>, i: nat, j: nat, c: nat)
    requires IsRun(run, events) && i <= j < |run| && Stranded(run[i], c)
    ensures Stranded(run[j], c)
    decreases j
  {
    if i < j {
      StrandedForever(run, events, i, j - 1, c);
      assert run[j] == Apply(run[j - 1], events[j - 1]);
    }
  }

  /** A call is stranded exactly by another one that suspends while it is suspended. */
  lemma StrandedByOverlap<T>(run: seq<State<T>>, events: seq<Event<T>>, i: nat, c: nat)
    requires IsRun(run, events) && i < |events| && c in run[i].callers && !Stranded(run[i], c)
    ensures c in run[i + 1].callers
    ensures Stranded(run[i + 1], c)
        <==> run[i].callers[c] == Waiting && !events[i].Emit? && events[i].c != c
             && run[i].queue == [] && !run[i].finished
  {
    assert run[i + 1] == Apply(run[i], events[i]);
  }

  /** Two calls at once: the first hangs although the stream has ended. */
  lemma TwoCallsCanHang<T>() returns (run: seq<State<T>>, events: seq<Event<T>>)
    ensures IsRun(run, events) && |events| == 3
    ensures run[3].finished && Stranded(run[3], 1)
  {
    var s0 := Start<T>();
    var s1 := Proceed(s0, 1);
    var s2 := Proceed(s1, 2);
    var s3 := OnEvent(s2, End);
    run, events := [s0, s1, s2, s3], [Call(1), Call(2), Emit(End)];
  }

  // ----- The iterator object ---------------------------------------------------------------------------

  class Iterator<T> {
    var queue: seq<Item<T>>
    var resolveNext: Option<nat>
    var finished: bool
    var callers: map<nat, Phase>
    ghost var emitted: seq<Item<T>>
    ghost var shifted: nat
    var log: seq<Outcome<T>>

    ghost function Now(): State<T>
      reads this
    {
      State(queue, resolveNext, finished, callers, emitted, shifted, log)
    }

    constructor ()
      ensures Now() == Start()
    {
      queue, resolveNext, finished, callers, log := [], None, false, map[], [];
      emitted, shifted := [], 0;
    }

    method Wake()
      modifies this
      ensures Now() == old(Now()).(
                resolveNext := None,
                callers := if old(resolveNext).Some? then old(callers)[old(resolveNext).value := Woken]
                           else old(callers))
    {
      if resolveNext.Some? {
        callers := callers[resolveNext.value := Woken];
      }
      resolveNext := None;
    }

    method HandleData(chunk: T)
      modifies this
      ensures Now() == OnEvent(old(Now()), Data(chunk))
    {
      queue := queue + [Data(chunk)];
      emitted := emitted + [Data(chunk)];
      Wake();
    }

    method HandleEnd()
      modifies this
      ensures Now() == OnEvent(old(Now()), End)
    {
      finished := true;
      queue := queue + [End];
      emitted := emitted + [End];
      Wake();
    }

    method HandleError(code: int)
      modifies this
      ensures Now() == OnEvent(old(Now()), Failure(code))
    {
      finished := true;
      queue := queue + [Failure(code)];
      emitted := emitted + [Failure(code)];
      Wake();
    }

    /** `next()` up to its return or its next suspension. */
    method Next(c: nat)
      modifies this
      ensures Now() == Proceed(old(Now()), c)
    {
      if queue == [] && !finished {
        resolveNext := Some(c);
        callers := callers[c := Waiting];
        return;
      }
      callers := callers[c := Returned];
      if queue == [] {
        log := log + [Done];
        return;
      }
      var item := queue[0];
      queue := queue[1..];
      shifted := shifted + 1;
      match item
      case Failure(code) => log := log + [Thrown(code)];
      case End => log := log + [Done];
      case Data(value) => log := log + [Value(value)];
    }

    /** One event: a handler, a call of `next()`, or the continuation of a suspended one. */
    method Handle(e: Event<T>)
      requires Enabled(Now(), e)
      modifies this
      ensures Now() == Apply(old(Now()), e)
    {
      match e
      case Emit(Data(chunk)) => HandleData(chunk);
      case Emit(End) => HandleEnd();
      case Emit(Failure(code)) => HandleError(code);
      case Call(c) => Next(c);
      case Resume(c) => Next(c);
    }
  }

  /** What the stream emits among the events, in order. */
  function Emissions<T>(events: seq<Event<T>>): seq<Item<T>> {
    if events == [] then [] else
    var last := events[|events| - 1];
    Emissions(events[..|events| - 1]) + if last.Emit? then [last.item] else []
  }

  lemma {:induction false} EmittedAre<T>(run: seq<State<T>>, events: seq<Event<T>>, i: nat)
    requires IsRun(run, events) && i < |run|
    ensures run[i].emitted == Emissions(events[..i])
  {
    if i > 0 {
      EmittedAre(run, events, i - 1);
      assert events[..i][..i - 1] == events[..i - 1];
      assert run[i] == Apply(run[i - 1], events[i - 1]);
    }
  }

  /**
   What the calls of `next()` may have returned of the items of a stream: up to the first `done` or
   throw the items one by one, and if the stream stops at its end, nothing but `done` after that.
   */
  predicate Delivers<T(==)>(items: seq<Item<T>>, log: seq<Outcome<T>>) {
    && (forall k | 0 <= k < |log| && AllValues(log[..k]) :: k < |items| && Shows(log[k], items[k]))
    && (StopsAtEnd(items) ==>
          forall k | 0 <= k < |log| :: if k < |items| then Shows(log[k], items[k]) else log[k] == Done)
  }

  /** Data is returned as it came, the end as `done`, and an error is thrown with its code. */
  predicate Shows<T(==)>(outcome: Outcome<T>, item: Item<T>) {
    match item
    case Data(value) => outcome == Value(value)
    case End => outcome == Done
    case Failure(code) => outcome == Thrown(code)
  }

  lemma RunDelivers<T>(run: seq<State<T>>, events: seq<Event<T>>)
    requires IsRun(run, events)
    ensures Delivers(Emissions(events), run[|events|].log)
  {
    var s := run[|events|];
    assert events[..|events|] == events;
    EmittedAre(run, events, |events|);
    ConsumerSeesStream(run, events, |events|);
    if StopsAtEnd(s.emitted) {
      ReturnsPrefixInOrder(run, events, |events|);
      forall k | 0 <= k < |s.log|
        ensures s.log[k] == if k < |s.emitted| then OutcomeOf(s.emitted[k]) else Done
      {
        assert k < s.shifted ==> s.log[k] == s.log[..s.shifted][k] && s.emitted[..s.shifted][k] == s.emitted[k];
      }
    }
  }

  /** The calls that have returned. */
  function Finished<T>(s: State<T>): set<nat> {
    set c | c in s.callers && s.callers[c] == Returned
  }

  ghost predicate CallsInv<T>(s: State<T>) {
    && |s.log| == |Finished(s)|
    && (s.resolveNext.Some? ==> s.resolveNext.value in s.callers && s.callers[s.resolveNext.value] == Waiting)
  }

  lemma ProceedKeepsCalls<T>(s: State<T>, c: nat)
    requires CallsInv(s) && c !in Finished(s) && s.resolveNext != Some(c)
    ensures CallsInv(Proceed(s, c))
  {
    var s' := Proceed(s, c);
    if s.queue == [] && !s.finished {
      assert Finished(s') == Finished(s);
    } else {
      assert Finished(s') == Finished(s) + {c};
    }
  }

  /** Every call that has returned has exactly one outcome. */
  lemma {:induction false} OneOutcomePerCall<T>(run: seq<State<T>>, events: seq<Event<T>>, i: nat)
    requires IsRun(run, events) && i < |run|
    ensures CallsInv(run[i])
  {
    if i == 0 {
      assert Finished(run[0]) == {};
    } else {
      OneOutcomePerCall(run, events, i - 1);
      assert run[i] == Apply(run[i - 1], events[i - 1]);
      match events[i - 1]
      case Emit(item) => assert Finished(run[i]) == Finished(run[i - 1]);
      case Call(c) => ProceedKeepsCalls(run[i - 1], c);
      case Resume(c) => ProceedKeepsCalls(run[i - 1], c);
    }
  }

  /** The iterator driven by any possible sequence of events delivers what the stream emitted. */
  method Drive<T(==)>(events: seq<Event<T>>, ghost run: seq<State<T>>) returns (log: seq<Outcome<T>>)
    requires IsRun(run, events)
    ensures Delivers(Emissions(events), log) && |log| == |Finished(run[|events|])|
  {
    var it := new Iterator<T>();
    for i := 0 to |events|
      invariant it.Now() == run[i]
    {
      it.Handle(events[i]);
    }
    RunDelivers(run, events);
    OneOutcomePerCall(run, events, |events|);
    return it.log;
  }
}

/**
 * The data-region assigner: realtime events of one data region are published
 * into a queue, and each one taken from the queue is routed to the extractors
 * whose patterns match it. An extractor receives either a copy of the event
 * bound to its pipe, or, for a pipe-generated event it does not forward, a
 * progress report carrying the event's progress index; reports for non-file
 * events are rate limited by one counter shared by all extractors. The
 * assigner also keeps the largest progress index of the file events it
 * routed, which only ever grows.
 */
module DataRegionAssigner {
  import opened ReferenceCounting
  import opened ProgressIndexes

  datatype Kind =
    | TabletInsertion
    | TsFileInsertion(timePartitionId: int)
    | Heartbeat
    | Deletion
    | OtherKind

  /** The categories the assigner's event counter tallies. */
  datatype Category = TabletCategory | TsFileCategory | HeartbeatCategory | OtherCategory

  function CategoryOf(k: Kind): Category
  {
    match k
    case TabletInsertion => TabletCategory
    case TsFileInsertion(_) => TsFileCategory
    case Heartbeat => HeartbeatCategory
    case _ => OtherCategory
  }

  /** The enriched event a realtime event wraps, with the pipe it is bound to. */
  datatype Inner = Inner(kind: Kind, generatedByPipe: bool, progressIndex: ProgressIndex, pipeName: string)

  /** A realtime event: the identity its references are tracked under, and its payload. */
  datatype RealtimeEvent = RealtimeEvent(id: EventId, inner: Inner)

  datatype Extractor = Extractor(pipeName: string, creationTime: int, forwardingPipeRequests: bool)

  /** What an extractor receives. */
  datatype Payload =
    | Copy(event: RealtimeEvent)
    | Report(id: EventId, pipeName: string, progressIndex: ProgressIndex)

  datatype Delivery = Delivery(extractor: Extractor, payload: Payload)

  /** The holder name under which the assigner holds events. */
  const HOLDER: string := "PipeDataRegionAssigner"

  /**
   * The routing state: the shared rate-limit counter, the tracked maximum
   * progress index, what was delivered, the reference state, and the next
   * identity for a created event.
   */
  datatype Routing = Routing(counter: int, maxIndex: ProgressIndex, deliveries: seq<Delivery>, refs: RefCounts, nextId: nat)

  /**
   * Binding of a file event's progress index: when the partition keeper says
   * the partition is already at or after the event's index, the event takes
   * the tracked maximum, which stays; otherwise the event keeps its index and
   * the maximum grows to cover it. Returns the event's index and the new maximum.
   */
  function BindOrUpdate(maxIndex: ProgressIndex, keeperAtOrAfter: bool, index: ProgressIndex): (r: (ProgressIndex, ProgressIndex))
    ensures AfterOrEqual(r.1, maxIndex)
    ensures keeperAtOrAfter ==> r.0 == maxIndex && r.1 == maxIndex
    ensures !keeperAtOrAfter ==>
      && r.0 == index && AfterOrEqual(r.1, index)
      && (forall c :: AfterOrEqual(c, maxIndex) && AfterOrEqual(c, index) ==> AfterOrEqual(c, r.1))
  {
    if keeperAtOrAfter then (maxIndex, maxIndex) else (index, Merge(maxIndex, index))
  }

  /** Whether the event is rate limited or reported when sent to `x`. */
  predicate ReportsTo(event: RealtimeEvent, x: Extractor)
  {
    event.inner.generatedByPipe && !x.forwardingPipeRequests
  }

  /** The routing of `event` to one matched extractor. */
  function Route(st: Routing, event: RealtimeEvent, x: Extractor, interval: nat,
                 keeper: (int, ProgressIndex) -> bool, pinnable: EventId -> bool): Routing
  {
    var isFile := event.inner.kind.TsFileInsertion?;
    if ReportsTo(event, x) then
      if !isFile && st.counter < interval then st.(counter := st.counter + 1)
      else
        var report := Report(st.nextId, x.pipeName, event.inner.progressIndex);
        var inc := Increase(st.refs, st.nextId, HOLDER, pinnable(st.nextId));
        Routing(if isFile then st.counter else 0, st.maxIndex,
                st.deliveries + (if inc.0 then [Delivery(x, report)] else []), inc.1, st.nextId + 1)
    else
      var bound := if isFile then
          BindOrUpdate(st.maxIndex, keeper(event.inner.kind.timePartitionId, event.inner.progressIndex), event.inner.progressIndex)
        else (event.inner.progressIndex, st.maxIndex);
      var copy := RealtimeEvent(st.nextId, event.inner.(pipeName := x.pipeName, progressIndex := bound.0));
      var inc := Increase(st.refs, st.nextId, HOLDER, pinnable(st.nextId));
      Routing(st.counter, bound.1, st.deliveries + (if inc.0 then [Delivery(x, Copy(copy))] else []), inc.1, st.nextId + 1)
  }

  /** The routing of `event` to the matched extractors, in order. */
  function RouteAll(st: Routing, event: RealtimeEvent, xs: seq<Extractor>, interval: nat,
                    keeper: (int, ProgressIndex) -> bool, pinnable: EventId -> bool): Routing
  {
    if xs == [] then st
    else Route(RouteAll(st, event, xs[..|xs| - 1], interval, keeper, pinnable), event, xs[|xs| - 1], interval, keeper, pinnable)
  }

  /**
   * The registered extractors that match the event, all and only those, each
   * as often as it is registered; the order here is registration order, and
   * the matcher may yield them in any other.
   */
  function Matched(event: RealtimeEvent, registered: seq<Extractor>, matches: (RealtimeEvent, Extractor) -> bool): (r: seq<Extractor>)
    ensures forall i | 0 <= i < |r| :: r[i] in registered && matches(event, r[i])
    ensures forall x | x in registered && matches(event, x) :: x in r
  {
    if registered == [] then []
    else
      var rest := Matched(event, registered[..|registered| - 1], matches);
      var x := registered[|registered| - 1];
      assert forall y | y in registered && y != x :: y in registered[..|registered| - 1];
      if matches(event, x) then rest + [x] else rest
  }

  /**
   * The matcher's answer: `order(e, reg)` lists exactly the matching
   * registered extractors, in whatever order the matcher iterates them.
   */
  ghost predicate OrdersMatches(order: (RealtimeEvent, seq<Extractor>) -> seq<Extractor>,
                                matches: (RealtimeEvent, Extractor) -> bool)
  {
    forall e, reg :: multiset(order(e, reg)) == multiset(Matched(e, reg, matches))
  }

  /**
   * Any order of the matches visits exactly the matching registered
   * extractors, as many as there are, and each once when the registry has no
   * duplicates.
   */
  lemma MatchOrderMeaning(xs: seq<Extractor>, e: RealtimeEvent, reg: seq<Extractor>,
                          matches: (RealtimeEvent, Extractor) -> bool)
    requires multiset(xs) == multiset(Matched(e, reg, matches))
    ensures |xs| == |Matched(e, reg, matches)|
    ensures forall x :: x in xs <==> x in reg && matches(e, x)
    ensures (forall i, j | 0 <= i < j < |reg| :: reg[i] != reg[j]) ==>
      forall i, j | 0 <= i < j < |xs| :: xs[i] != xs[j]
  {
    var m := Matched(e, reg, matches);
    assert |xs| == |multiset(xs)| == |multiset(m)| == |m|;
    forall x ensures x in xs <==> x in reg && matches(e, x)
    {
      assert x in xs <==> x in multiset(xs);
      assert x in m <==> x in multiset(m);
      if x in m {
        var i :| 0 <= i < |m| && m[i] == x;
      }
    }
    if forall i, j | 0 <= i < j < |reg| :: reg[i] != reg[j] {
      MatchedDistinct(e, reg, matches);
      forall i, j | 0 <= i < j < |xs| ensures xs[i] != xs[j]
      {
        if xs[i] == xs[j] {
          DuplicateCount(xs, i, j);
          assert multiset(m)[xs[i]] >= 2;
          DistinctCount(m, xs[i]);
          assert false;
        }
      }
    }
  }

  lemma MatchedDistinct(e: RealtimeEvent, reg: seq<Extractor>, matches: (RealtimeEvent, Extractor) -> bool)
    requires forall i, j | 0 <= i < j < |reg| :: reg[i] != reg[j]
    ensures var m := Matched(e, reg, matches); forall i, j | 0 <= i < j < |m| :: m[i] != m[j]
  {
    if reg != [] {
      var init := reg[..|reg| - 1];
      MatchedDistinct(e, init, matches);
      var x := reg[|reg| - 1];
      assert x !in init;
      var rest := Matched(e, init, matches);
      assert forall i | 0 <= i < |rest| :: rest[i] in init;
    }
  }

  /** Two equal elements at two places count twice. */
  lemma DuplicateCount<T>(s: seq<T>, i: nat, j: nat)
    requires i < j < |s| && s[i] == s[j]
    ensures multiset(s)[s[i]] >= 2
  {
    assert s == s[..i] + [s[i]] + s[i + 1..j] + [s[j]] + s[j + 1..];
  }

  /** In a sequence without duplicates, every element counts at most once. */
  lemma DistinctCount<T>(s: seq<T>, x: T)
    requires forall i, j | 0 <= i < j < |s| :: s[i] != s[j]
    ensures multiset(s)[x] <= 1
  {
    if s != [] {
      var init := s[..|s| - 1];
      DistinctCount(init, x);
      assert s == init + [s[|s| - 1]];
      if x == s[|s| - 1] {
        assert x !in init;
      }
    }
  }

  lemma DivModStep(x: int, m: int)
    requires m > 0 && x >= 0
    ensures x % m < m - 1 ==> (x + 1) % m == x % m + 1 && (x + 1) / m == x / m
    ensures x % m == m - 1 ==> (x + 1) % m == 0 && (x + 1) / m == x / m + 1
  {
    var q, r := x / m, x % m;
    assert x == q * m + r;
    if r < m - 1 {
      DivModUnique(x + 1, m, q, r + 1);
    } else {
      assert x + 1 == (q + 1) * m + 0;
      DivModUnique(x + 1, m, q + 1, 0);
    }
  }

  lemma MulAtLeast(d: int, m: int)
    requires d >= 1 && m > 0
    ensures d * m >= m
  {
    if d > 1 {
      MulAtLeast(d - 1, m);
      assert d * m == (d - 1) * m + m;
    }
  }

  lemma DivModUnique(x: int, m: int, q: int, r: int)
    requires m > 0 && 0 <= r < m && x == q * m + r
    ensures x / m == q && x % m == r
  {
    var q', r' := x / m, x % m;
    assert x == q' * m + r';
    if q > q' {
      assert (q - q') * m == q * m - q' * m;
      MulAtLeast(q - q', m);
      assert false;
    } else if q < q' {
      assert (q' - q) * m == q' * m - q * m;
      MulAtLeast(q' - q, m);
      assert false;
    }
  }

  /**
   * The shared rate limit: routing a pipe-generated non-file event to `k`
   * non-forwarding extractors from counter `c` leaves the counter at
   * `(c + k) mod (N + 1)` and creates `(c + k) div (N + 1)` reports, so from
   * counter 0 exactly one report is created per N + 1 matches.
   */
  lemma {:induction false} RateLimit(st: Routing, event: RealtimeEvent, xs: seq<Extractor>, interval: nat,
                                     keeper: (int, ProgressIndex) -> bool, pinnable: EventId -> bool)
    requires event.inner.generatedByPipe && !event.inner.kind.TsFileInsertion?
    requires forall i | 0 <= i < |xs| :: !xs[i].forwardingPipeRequests
    requires 0 <= st.counter <= interval
    ensures var r := RouteAll(st, event, xs, interval, keeper, pinnable);
      && r.counter == (st.counter + |xs|) % (interval + 1)
      && r.nextId == st.nextId + (st.counter + |xs|) / (interval + 1)
      && r.maxIndex == st.maxIndex
  {
    if xs != [] {
      var init := xs[..|xs| - 1];
      RateLimit(st, event, init, interval, keeper, pinnable);
      DivModStep(st.counter + |init|, interval + 1);
      assert (st.counter + 0) % (interval + 1) == st.counter by {
        DivModUnique(st.counter, interval + 1, 0, st.counter);
      }
    } else {
      DivModUnique(st.counter, interval + 1, 0, st.counter);
    }
  }

  /** File events are never rate limited: each non-forwarding match gets a report and the counter is untouched. */
  lemma {:induction false} FileEventsAlwaysReported(st: Routing, event: RealtimeEvent, xs: seq<Extractor>, interval: nat,
                                                    keeper: (int, ProgressIndex) -> bool, pinnable: EventId -> bool)
    requires event.inner.generatedByPipe && event.inner.kind.TsFileInsertion?
    requires forall i | 0 <= i < |xs| :: !xs[i].forwardingPipeRequests
    ensures var r := RouteAll(st, event, xs, interval, keeper, pinnable);
      r.counter == st.counter && r.nextId == st.nextId + |xs| && r.maxIndex == st.maxIndex
  {
    if xs != [] {
      FileEventsAlwaysReported(st, event, xs[..|xs| - 1], interval, keeper, pinnable);
    }
  }

  /** The delivery one extractor may receive from a routing, valid for a report or for a copy. */
  ghost predicate ShapedFor(event: RealtimeEvent, d: Delivery)
  {
    && (d.payload.Report? <==> ReportsTo(event, d.extractor))
    && (d.payload.Report? ==> d.payload.progressIndex == event.inner.progressIndex
                              && d.payload.pipeName == d.extractor.pipeName)
    && (d.payload.Copy? ==> d.payload.event.inner.pipeName == d.extractor.pipeName
                            && d.payload.event.inner.kind == event.inner.kind)
  }

  /**
   * What routing delivers: only to matched extractors, in order after what was
   * already delivered; a report exactly to the non-forwarding extractors of a
   * pipe-generated event, carrying the event's progress index; otherwise a
   * copy bound to the extractor's pipe.
   */
  lemma {:induction false} DeliveryShape(st: Routing, event: RealtimeEvent, xs: seq<Extractor>, interval: nat,
                                         keeper: (int, ProgressIndex) -> bool, pinnable: EventId -> bool)
    ensures var r := RouteAll(st, event, xs, interval, keeper, pinnable);
      && |st.deliveries| <= |r.deliveries| <= |st.deliveries| + |xs|
      && r.deliveries[..|st.deliveries|] == st.deliveries
      && forall i | |st.deliveries| <= i < |r.deliveries| ::
           r.deliveries[i].extractor in xs && ShapedFor(event, r.deliveries[i])
  {
    if xs != [] {
      var init := xs[..|xs| - 1];
      var x := xs[|xs| - 1];
      DeliveryShape(st, event, init, interval, keeper, pinnable);
      var mid := RouteAll(st, event, init, interval, keeper, pinnable);
      var r := RouteAll(st, event, xs, interval, keeper, pinnable);
      assert r == Route(mid, event, x, interval, keeper, pinnable);
      RouteShape(mid, event, x, interval, keeper, pinnable);
      assert r.deliveries[..|st.deliveries|] == st.deliveries by {
        assert r.deliveries[..|st.deliveries|] == r.deliveries[..|mid.deliveries|][..|st.deliveries|];
      }
      forall i | |st.deliveries| <= i < |r.deliveries|
        ensures r.deliveries[i].extractor in xs && ShapedFor(event, r.deliveries[i])
      {
        if i < |mid.deliveries| {
          assert r.deliveries[i] == mid.deliveries[i];
          assert mid.deliveries[i].extractor in init;
        }
      }
    }
  }

  /** One routing appends at most one delivery, to that extractor and of the expected kind. */
  lemma RouteShape(st: Routing, event: RealtimeEvent, x: Extractor, interval: nat,
                   keeper: (int, ProgressIndex) -> bool, pinnable: EventId -> bool)
    ensures var r := Route(st, event, x, interval, keeper, pinnable);
      && |st.deliveries| <= |r.deliveries| <= |st.deliveries| + 1
      && r.deliveries[..|st.deliveries|] == st.deliveries
      && (|r.deliveries| > |st.deliveries| ==>
            r.deliveries[|st.deliveries|].extractor == x && ShapedFor(event, r.deliveries[|st.deliveries|]))
  {
  }

  lemma RouteAllStep(st: Routing, event: RealtimeEvent, xs: seq<Extractor>, i: nat, interval: nat,
                     keeper: (int, ProgressIndex) -> bool, pinnable: EventId -> bool)
    requires i < |xs|
    ensures RouteAll(st, event, xs[..i + 1], interval, keeper, pinnable)
      == Route(RouteAll(st, event, xs[..i], interval, keeper, pinnable), event, xs[i], interval, keeper, pinnable)
  {
    assert xs[..i + 1][..i] == xs[..i];
  }

  /** The tracked maximum never regresses while an event is routed. */
  lemma {:induction false} MaxIndexNeverRegresses(st: Routing, event: RealtimeEvent, xs: seq<Extractor>, interval: nat,
                                                  keeper: (int, ProgressIndex) -> bool, pinnable: EventId -> bool)
    ensures AfterOrEqual(RouteAll(st, event, xs, interval, keeper, pinnable).maxIndex, st.maxIndex)
  {
    if xs == [] {
      AfterOrEqualIsPartialOrder(st.maxIndex, st.maxIndex, st.maxIndex);
    } else {
      var mid := RouteAll(st, event, xs[..|xs| - 1], interval, keeper, pinnable);
      MaxIndexNeverRegresses(st, event, xs[..|xs| - 1], interval, keeper, pinnable);
      var r := Route(mid, event, xs[|xs| - 1], interval, keeper, pinnable);
      assert AfterOrEqual(r.maxIndex, mid.maxIndex) by {
        AfterOrEqualIsPartialOrder(mid.maxIndex, mid.maxIndex, mid.maxIndex);
      }
      AfterOrEqualIsPartialOrder(r.maxIndex, mid.maxIndex, st.maxIndex);
    }
  }

  /**
   * When no created event can be refused, a user event reaches every matched
   * extractor as a copy: a refused copy is the only way a match is skipped.
   */
  lemma {:induction false} CopiesReachEveryMatch(st: Routing, event: RealtimeEvent, xs: seq<Extractor>, interval: nat,
                                                 keeper: (int, ProgressIndex) -> bool, pinnable: EventId -> bool)
    requires !event.inner.generatedByPipe
    requires forall id: EventId | id >= st.nextId :: id !in st.refs.released && pinnable(id)
    ensures var r := RouteAll(st, event, xs, interval, keeper, pinnable);
      && |r.deliveries| == |st.deliveries| + |xs|
      && r.nextId == st.nextId + |xs| && r.refs.released == st.refs.released
      && forall i | 0 <= i < |xs| ::
           r.deliveries[|st.deliveries| + i].extractor == xs[i]
           && r.deliveries[|st.deliveries| + i].payload.Copy?
           && r.deliveries[|st.deliveries| + i].payload.event.id == st.nextId + i
  {
    if xs != [] {
      var init := xs[..|xs| - 1];
      CopiesReachEveryMatch(st, event, init, interval, keeper, pinnable);
      var mid := RouteAll(st, event, init, interval, keeper, pinnable);
      var r := RouteAll(st, event, xs, interval, keeper, pinnable);
      assert mid.nextId !in mid.refs.released && pinnable(mid.nextId);
      forall i | 0 <= i < |xs|
        ensures r.deliveries[|st.deliveries| + i].extractor == xs[i]
          && r.deliveries[|st.deliveries| + i].payload.Copy?
          && r.deliveries[|st.deliveries| + i].payload.event.id == st.nextId + i
      {
        if i < |init| {
          assert r.deliveries[|st.deliveries| + i] == mid.deliveries[|st.deliveries| + i];
          assert xs[i] == init[i];
        }
      }
    }
  }

  class Assigner {
    /**
     * The interval N of non-forwarding progress reports: one report per N + 1
     * rate-limited matches. The configured Java `int` may be negative, which
     * behaves as 0 (a report on every match); the model takes N as that `nat`.
     */
    const interval: nat
    /** Whether an extractor's patterns match an event (decided outside this model). */
    const matches: (RealtimeEvent, Extractor) -> bool
    /** The order in which the matcher yields the matching extractors (decided outside this model). */
    const matchOrder: (RealtimeEvent, seq<Extractor>) -> seq<Extractor>
    /** Whether the time partition's progress is already at or after an index (decided outside this model). */
    const keeper: (int, ProgressIndex) -> bool
    const tracker: ReferenceTracker
    var counter: int
    var maxProgressIndex: ProgressIndex
    var registered: seq<Extractor>
    var closed: bool
    /** Published events not yet taken by the queue's consumer. */
    var queue: seq<RealtimeEvent>
    var deliveries: seq<Delivery>
    var eventCounts: multiset<Category>
    var nextId: nat

    ghost predicate Valid()
      reads this
    {
      && 0 <= counter <= interval && OrdersMatches(matchOrder, matches)
      && forall i, j | 0 <= i < j < |registered| :: registered[i] != registered[j]
    }

    ghost function State(): Routing
      reads this, tracker
    {
      Routing(counter, maxProgressIndex, deliveries, tracker.counts, nextId)
    }

    constructor (interval: nat, matches: (RealtimeEvent, Extractor) -> bool,
                 matchOrder: (RealtimeEvent, seq<Extractor>) -> seq<Extractor>,
                 keeper: (int, ProgressIndex) -> bool, tracker: ReferenceTracker, firstId: nat)
      requires OrdersMatches(matchOrder, matches)
      ensures Valid()
      ensures this.interval == interval && this.matches == matches && this.matchOrder == matchOrder
      ensures this.keeper == keeper && this.tracker == tracker
      ensures counter == 0 && maxProgressIndex == Minimum() && registered == [] && !closed
      ensures queue == [] && deliveries == [] && eventCounts == multiset{} && nextId == firstId
    {
      this.interval := interval;
      this.matches := matches;
      this.matchOrder := matchOrder;
      this.keeper := keeper;
      this.tracker := tracker;
      counter := 0;
      maxProgressIndex := Minimum();
      registered := [];
      closed := false;
      queue := [];
      deliveries := [];
      eventCounts := multiset{};
      nextId := firstId;
    }

    /**
     * Takes a reference to the event and queues it; a refused reference
     * drops the event untouched, and on a closed queue the hook runs at once,
     * so that the reference and the count are given back.
     */
    method PublishToAssign(event: RealtimeEvent)
      modifies this, tracker
      ensures var inc := Increase(old(tracker.counts), event.id, HOLDER, tracker.pinnable(event.id));
        && (!inc.0 ==> tracker.counts == old(tracker.counts) && eventCounts == old(eventCounts) && queue == old(queue))
        && (inc.0 && !closed ==> tracker.counts == inc.1 && queue == old(queue) + [event]
                                 && eventCounts == old(eventCounts) + multiset{CategoryOf(event.inner.kind)})
        && (inc.0 && closed ==> tracker.counts == Decrease(inc.1, event.id, HOLDER).1 && queue == old(queue)
                                && eventCounts == old(eventCounts)
                                && Held(tracker.counts, event.id) == Held(old(tracker.counts), event.id))
      ensures closed == old(closed) && registered == old(registered) && deliveries == old(deliveries)
      ensures counter == old(counter) && maxProgressIndex == old(maxProgressIndex) && nextId == old(nextId)
    {
      ghost var before := tracker.counts;
      var ok := tracker.IncreaseReferenceCount(event.id, HOLDER);
      if !ok {
        return;
      }
      eventCounts := eventCounts + multiset{CategoryOf(event.inner.kind)};
      if !closed {
        queue := queue + [event];
      } else {
        OnAssignedHook(event);
        IncreaseThenDecrease(before, event.id, HOLDER, tracker.pinnable(event.id));
      }
    }

    /** After an event was assigned: its reference is given back and it is no longer counted. */
    method OnAssignedHook(event: RealtimeEvent)
      modifies this, tracker
      ensures tracker.counts == Decrease(old(tracker.counts), event.id, HOLDER).1
      ensures eventCounts == old(eventCounts) - multiset{CategoryOf(event.inner.kind)}
      ensures closed == old(closed) && registered == old(registered) && deliveries == old(deliveries)
      ensures counter == old(counter) && maxProgressIndex == old(maxProgressIndex) && nextId == old(nextId)
      ensures queue == old(queue)
    {
      var _ := tracker.DecreaseReferenceCount(event.id, HOLDER);
      eventCounts := eventCounts - multiset{CategoryOf(event.inner.kind)};
    }

    /** The queue's consumer: the oldest published event is assigned, then its hook runs. */
    method ProcessNext()
      requires Valid() && queue != []
      modifies this, tracker
      ensures Valid()
      ensures queue == old(queue[1..])
      ensures var mid := if old(closed) then old(State()) else
          RouteAll(old(State()), old(queue[0]), matchOrder(old(queue[0]), registered), interval, keeper, tracker.pinnable);
        && counter == mid.counter && maxProgressIndex == mid.maxIndex && deliveries == mid.deliveries
        && nextId == mid.nextId && tracker.counts == Decrease(mid.refs, old(queue[0]).id, HOLDER).1
      ensures eventCounts == old(eventCounts) - multiset{CategoryOf(old(queue[0]).inner.kind)}
      ensures closed == old(closed) && registered == old(registered)
    {
      var event := queue[0];
      queue := queue[1..];
      AssignToExtractor(event);
      OnAssignedHook(event);
    }

    /**
     * Routes the event to every registered extractor that matches it, in the
     * matcher's order, unless the queue is closed.
     */
    method AssignToExtractor(event: RealtimeEvent)
      requires Valid()
      modifies this, tracker
      ensures Valid()
      ensures old(closed) ==> State() == old(State())
      ensures !old(closed) ==>
        State() == RouteAll(old(State()), event, matchOrder(event, registered), interval, keeper, tracker.pinnable)
      ensures multiset(matchOrder(event, registered)) == multiset(Matched(event, registered, matches))
      ensures closed == old(closed) && registered == old(registered) && queue == old(queue)
      ensures eventCounts == old(eventCounts)
    {
      if closed {
        return;
      }
      var matched := matchOrder(event, registered);
      var i := 0;
      while i < |matched|
        invariant 0 <= i <= |matched| && Valid()
        invariant State() == RouteAll(old(State()), event, matched[..i], interval, keeper, tracker.pinnable)
        invariant closed == old(closed) && registered == old(registered) && queue == old(queue)
        invariant eventCounts == old(eventCounts)
      {
        RouteAllStep(old(State()), event, matched, i, interval, keeper, tracker.pinnable);
        AssignOne(event, matched[i]);
        i := i + 1;
      }
      assert matched[..i] == matched;
    }

    /** The routing of the event to one matched extractor. */
    method AssignOne(event: RealtimeEvent, x: Extractor)
      requires Valid()
      modifies this, tracker
      ensures Valid()
      ensures State() == Route(old(State()), event, x, interval, keeper, tracker.pinnable)
      ensures closed == old(closed) && registered == old(registered) && queue == old(queue)
      ensures eventCounts == old(eventCounts)
    {
      if event.inner.generatedByPipe && !x.forwardingPipeRequests {
        ReportTo(event, x);
      } else {
        CopyTo(event, x);
      }
    }

    /** A pipe-generated event sent to a non-forwarding extractor: a rate-limited progress report. */
    method ReportTo(event: RealtimeEvent, x: Extractor)
      requires Valid() && ReportsTo(event, x)
      modifies this, tracker
      ensures Valid()
      ensures State() == Route(old(State()), event, x, interval, keeper, tracker.pinnable)
      ensures closed == old(closed) && registered == old(registered) && queue == old(queue)
      ensures eventCounts == old(eventCounts)
    {
      ghost var st := State();
      if !event.inner.kind.TsFileInsertion? {
        if counter < interval {
          counter := counter + 1;
          assert State() == st.(counter := st.counter + 1);
          return;
        }
        counter := 0;
      }
      var report := Report(nextId, x.pipeName, event.inner.progressIndex);
      Deliver(x, report);
    }

    /** Any other match: a copy of the event bound to the extractor's pipe. */
    method CopyTo(event: RealtimeEvent, x: Extractor)
      requires Valid() && !ReportsTo(event, x)
      modifies this, tracker
      ensures Valid()
      ensures State() == Route(old(State()), event, x, interval, keeper, tracker.pinnable)
      ensures closed == old(closed) && registered == old(registered) && queue == old(queue)
      ensures eventCounts == old(eventCounts)
    {
      var bound := event.inner.progressIndex;
      if event.inner.kind.TsFileInsertion? {
        bound := BindOrUpdateProgressIndex(event.inner.kind.timePartitionId, event.inner.progressIndex);
      }
      var copy := RealtimeEvent(nextId, event.inner.(pipeName := x.pipeName, progressIndex := bound));
      Deliver(x, Copy(copy));
    }

    /** Pins the next event id under the assigner's name; the payload is delivered only when that succeeds. */
    method Deliver(x: Extractor, payload: Payload)
      modifies this, tracker
      ensures var inc := Increase(old(tracker.counts), old(nextId), HOLDER, tracker.pinnable(old(nextId)));
        && tracker.counts == inc.1
        && deliveries == old(deliveries) + (if inc.0 then [Delivery(x, payload)] else [])
      ensures nextId == old(nextId) + 1
      ensures counter == old(counter) && maxProgressIndex == old(maxProgressIndex) && closed == old(closed)
      ensures registered == old(registered) && queue == old(queue) && eventCounts == old(eventCounts)
    {
      var ok := tracker.IncreaseReferenceCount(nextId, HOLDER);
      nextId := nextId + 1;
      if ok {
        deliveries := deliveries + [Delivery(x, payload)];
      }
    }

    /** Binds a file event's index, or grows the tracked maximum to cover it; returns the event's index. */
    method BindOrUpdateProgressIndex(timePartitionId: int, index: ProgressIndex) returns (bound: ProgressIndex)
      modifies this
      ensures (bound, maxProgressIndex) == BindOrUpdate(old(maxProgressIndex), keeper(timePartitionId, index), index)
      ensures counter == old(counter) && registered == old(registered) && closed == old(closed)
      ensures queue == old(queue) && deliveries == old(deliveries) && eventCounts == old(eventCounts)
      ensures nextId == old(nextId)
    {
      if keeper(timePartitionId, index) {
        bound := maxProgressIndex;
      } else {
        maxProgressIndex := Merge(maxProgressIndex, index);
        bound := index;
      }
    }

    /** Registers an extractor with the matcher. */
    method StartAssignTo(x: Extractor)
      requires Valid()
      modifies this
      ensures Valid()
      ensures x in registered && |registered| > 0
      ensures forall y :: y in registered <==> y in old(registered) || y == x
      ensures counter == old(counter) && maxProgressIndex == old(maxProgressIndex) && closed == old(closed)
      ensures queue == old(queue) && deliveries == old(deliveries) && eventCounts == old(eventCounts)
      ensures nextId == old(nextId)
    {
      if x !in registered {
        registered := registered + [x];
      }
    }

    /** Deregisters an extractor from the matcher. */
    method StopAssignTo(x: Extractor)
      requires Valid()
      modifies this
      ensures Valid()
      ensures forall y :: y in registered <==> y in old(registered) && y != x
      ensures counter == old(counter) && maxProgressIndex == old(maxProgressIndex) && closed == old(closed)
      ensures queue == old(queue) && deliveries == old(deliveries) && eventCounts == old(eventCounts)
      ensures nextId == old(nextId)
    {
      var kept: seq<Extractor> := [];
      var i := 0;
      while i < |registered|
        invariant 0 <= i <= |registered|
        invariant forall y :: y in kept <==> y in registered[..i] && y != x
        invariant forall a, b | 0 <= a < b < |kept| :: kept[a] != kept[b]
      {
        if registered[i] != x {
          assert registered[i] !in kept by {
            assert forall j | 0 <= j < i :: registered[j] != registered[i];
          }
          kept := kept + [registered[i]];
        }
        assert registered[..i + 1] == registered[..i] + [registered[i]];
        i := i + 1;
      }
      assert registered[..i] == registered;
      registered := kept;
    }

    /** True exactly when no extractor is registered. */
    function NotMoreExtractorNeededToBeAssigned(): (r: bool)
      reads this
      ensures r <==> forall y :: y !in registered
    {
      assert registered != [] ==> registered[0] in registered;
      |registered| == 0
    }

    /** Clears the matcher and closes the queue; queued events still pass through the hook when taken. */
    method Close()
      requires Valid()
      modifies this
      ensures Valid()
      ensures closed && registered == []
      ensures counter == old(counter) && maxProgressIndex == old(maxProgressIndex)
      ensures queue == old(queue) && deliveries == old(deliveries) && eventCounts == old(eventCounts)
      ensures nextId == old(nextId)
    {
      registered := [];
      closed := true;
    }
  }
}

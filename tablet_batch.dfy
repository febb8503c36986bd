/**
 * The subscription tablet batch: a seal-once accumulator of tablets taken
 * from pipe events. It records the events whose references it holds, sums
 * the tablet sizes, starts a delay timer on the first recorded event, and
 * seals itself into one poll response when the size or the delay threshold
 * is reached. Last-point events pass through a per-path freshness filter.
 */
module SubscriptionBatch {
  import opened Wrappers
  import opened JavaInts
  import opened ReferenceCounting

  /**
   * A tablet as the batch sees it: the device, one measurement per column,
   * the row timestamps, and for each column whether its first row is null
   * (bit 0 of that column's bitmap).
   */
  datatype Tablet = Tablet(deviceId: string, measurements: seq<string>, timestamps: seq<int>, firstRowNull: seq<bool>)

  /** One bitmap per column. */
  predicate WellFormed(t: Tablet)
  {
    |t.firstRowNull| == |t.measurements|
  }

  /** The tablet-insertion event kinds; only the first two can be turned into tablets. */
  datatype TabletInsertion =
    | InsertNodeEvent(converted: seq<Tablet>)
    | RawTabletEvent(tablet: Tablet)
    | UnsupportedTabletEvent

  /**
   * The per-path freshness filters of last-point events: `latest[path]` is the
   * newest timestamp consumed on `path`; a path without an entry has no filter.
   */
  class LastPointCache {
    var latest: map<string, int>

    constructor (latest: map<string, int>)
      ensures this.latest == latest
    {
      this.latest := latest;
    }

    /**
     * The freshness rule of a path's filter, which this model assumes: a
     * value is fresh when its time is after the one consumed on its path, and
     * a fresh one is consumed. The value itself is not compared.
     */
    method FilterAndMarkAsConsumed(path: string, timestamp: int) returns (newer: bool)
      requires path in latest
      modifies this
      ensures newer <==> timestamp > old(latest[path])
      ensures latest == if newer then old(latest)[path := timestamp] else old(latest)
    {
      newer := timestamp > latest[path];
      if newer {
        latest := latest[path := timestamp];
      }
    }
  }

  /** The events the batch can receive; `id` names the event in the reference tracker. */
  datatype Event =
    | TabletInsertionEvent(id: EventId, insertion: TabletInsertion)
    | TsFileInsertionEvent(id: EventId, parts: seq<TabletInsertion>)
    | LastPointTabletEvent(id: EventId, tablet: Option<Tablet>, cache: LastPointCache)
    | OtherEvent(id: EventId)

  /** The single subscription event a sealed batch emits: its tablets and its recorded events. */
  datatype SealedBatch = SealedBatch(tablets: seq<Tablet>, events: seq<EventId>)

  /** The holder name under which the batch holds its events. */
  const HOLDER: string := "SubscriptionPipeTabletEventBatch"

  /** The largest clock value for which an unset timer can never fire: 2^63 - 2^31 - 1. */
  const TIMER_HORIZON: int := LONG_MAX + INT_MIN

  /** Only insert-node and raw-tablet events convert; any other kind yields no tablet. */
  function ConvertToTablets(insertion: TabletInsertion): (r: seq<Tablet>)
    ensures insertion.UnsupportedTabletEvent? ==> r == []
    ensures insertion.RawTabletEvent? ==> r == [insertion.tablet]
    ensures insertion.InsertNodeEvent? ==> r == insertion.converted
  {
    match insertion
    case InsertNodeEvent(converted) => converted
    case RawTabletEvent(tablet) => [tablet]
    case UnsupportedTabletEvent => []
  }

  /** The tablets of the first `n` parts of a file-ingestion event, part after part. */
  function ConvertParts(parts: seq<TabletInsertion>, n: nat): seq<Tablet>
    requires n <= |parts|
  {
    if n == 0 then [] else ConvertParts(parts, n - 1) + ConvertToTablets(parts[n - 1])
  }

  function ConvertAll(parts: seq<TabletInsertion>): seq<Tablet>
  {
    ConvertParts(parts, |parts|)
  }

  function SumSizes(size: Tablet -> nat, ts: seq<Tablet>): nat
  {
    if ts == [] then 0 else SumSizes(size, ts[..|ts| - 1]) + size(ts[|ts| - 1])
  }

  lemma {:induction false} SumSizesAppend(size: Tablet -> nat, a: seq<Tablet>, b: seq<Tablet>)
    ensures SumSizes(size, a + b) == SumSizes(size, a) + SumSizes(size, b)
    decreases |b|
  {
    if b != [] {
      assert (a + b)[..|a + b| - 1] == a + b[..|b| - 1];
      assert (a + b)[|a + b| - 1] == b[|b| - 1];
      SumSizesAppend(size, a, b[..|b| - 1]);
      calc {
        SumSizes(size, a + b);
        SumSizes(size, a + b[..|b| - 1]) + size(b[|b| - 1]);
        SumSizes(size, a) + SumSizes(size, b[..|b| - 1]) + size(b[|b| - 1]);
        SumSizes(size, a) + SumSizes(size, b);
      }
    } else {
      assert a + b == a;
    }
  }

  function Ids(events: seq<Event>): (r: seq<EventId>)
    ensures |r| == |events| && forall i | 0 <= i < |events| :: r[i] == events[i].id
  {
    seq(|events|, i requires 0 <= i < |events| => events[i].id)
  }

  // ---------------------------------------------------------------------------
  // The last-point filter, with one bitmap per column and the row's timestamp.
  // ---------------------------------------------------------------------------

  /** The filter's progress: which columns are filtered, the first-row bits, the consumed times. */
  datatype FilterState = FilterState(filtered: seq<bool>, firstRowNull: seq<bool>, latest: map<string, int>)

  function ColumnPath(t: Tablet, i: nat): string
    requires i < |t.measurements|
  {
    t.deviceId + "." + t.measurements[i]
  }

  /** Column `i` is stale when its path has a filter that has already consumed a time at or after the row's. */
  ghost predicate Stale(t: Tablet, latest: map<string, int>, i: nat)
    requires i < |t.measurements| && |t.timestamps| > 0
  {
    ColumnPath(t, i) in latest && t.timestamps[0] <= latest[ColumnPath(t, i)]
  }

  /** The filter after visiting the columns `[0, k)`. */
  function FilterUpTo(t: Tablet, latest: map<string, int>, k: nat): (st: FilterState)
    requires WellFormed(t) && |t.timestamps| > 0 && k <= |t.measurements|
    ensures |st.filtered| == k && |st.firstRowNull| == |t.firstRowNull|
  {
    if k == 0 then FilterState([], t.firstRowNull, latest)
    else
      var st := FilterUpTo(t, latest, k - 1);
      var i := k - 1;
      var path := ColumnPath(t, i);
      if st.firstRowNull[i] then st.(filtered := st.filtered + [true])
      else if path in st.latest && !(t.timestamps[0] > st.latest[path]) then
        FilterState(st.filtered + [true], st.firstRowNull[i := true], st.latest)
      else if path in st.latest then
        FilterState(st.filtered + [false], st.firstRowNull, st.latest[path := t.timestamps[0]])
      else st.(filtered := st.filtered + [false])
  }

  predicate AllMarked(s: seq<bool>)
  {
    forall i | 0 <= i < |s| :: s[i]
  }

  ghost predicate DistinctMeasurements(t: Tablet)
  {
    forall i, j | 0 <= i < j < |t.measurements| :: t.measurements[i] != t.measurements[j]
  }

  /** The paths of the columns in `[0, k)` whose first row is not null. */
  ghost function ValuedPaths(t: Tablet, k: nat): set<string>
    requires WellFormed(t) && k <= |t.measurements|
  {
    set i | 0 <= i < k && !t.firstRowNull[i] :: ColumnPath(t, i)
  }

  function Max(a: int, b: int): int { if a < b then b else a }

  lemma ColumnPathInjective(t: Tablet, i: nat, j: nat)
    requires i < |t.measurements| && j < |t.measurements|
    requires ColumnPath(t, i) == ColumnPath(t, j)
    ensures t.measurements[i] == t.measurements[j]
  {
    var prefix := t.deviceId + ".";
    assert ColumnPath(t, i) == prefix + t.measurements[i];
    assert ColumnPath(t, j) == prefix + t.measurements[j];
    assert t.measurements[i] == ColumnPath(t, i)[|prefix|..];
  }

  /**
   * What the filter computes, for a tablet whose measurements are distinct:
   * a column is filtered exactly when its first row is null or it is stale;
   * exactly the stale columns get their first row marked null; and each
   * filter that saw a valued column has consumed the row's time unless it
   * had already consumed a later one. Every path keeps its filter.
   */
  lemma {:induction false} FilterMeaning(t: Tablet, latest: map<string, int>, k: nat)
    requires WellFormed(t) && |t.timestamps| > 0 && k <= |t.measurements|
    requires DistinctMeasurements(t)
    ensures var st := FilterUpTo(t, latest, k);
      && (forall i | 0 <= i < k :: st.filtered[i] <==> t.firstRowNull[i] || Stale(t, latest, i))
      && (forall i | 0 <= i < |t.measurements| ::
            st.firstRowNull[i] <==> t.firstRowNull[i] || (i < k && Stale(t, latest, i)))
      && st.latest.Keys == latest.Keys
      && (forall p | p in latest ::
            st.latest[p] == if p in ValuedPaths(t, k) then Max(latest[p], t.timestamps[0]) else latest[p])
  {
    FilterLatest(t, latest, k);
    if k > 0 {
      FilterMeaning(t, latest, k - 1);
      FilterFlagsStep(t, latest, k);
    }
  }

  /** Visiting column `k - 1` sets its two bits by its first row and staleness, and no other bit changes. */
  lemma FilterFlagsStep(t: Tablet, latest: map<string, int>, k: nat)
    requires WellFormed(t) && |t.timestamps| > 0 && 0 < k <= |t.measurements|
    requires DistinctMeasurements(t)
    requires var prev := FilterUpTo(t, latest, k - 1);
      && (forall i | 0 <= i < k - 1 :: prev.filtered[i] <==> t.firstRowNull[i] || Stale(t, latest, i))
      && (forall i | 0 <= i < |t.measurements| ::
            prev.firstRowNull[i] <==> t.firstRowNull[i] || (i < k - 1 && Stale(t, latest, i)))
    ensures var st := FilterUpTo(t, latest, k);
      && (forall i | 0 <= i < k :: st.filtered[i] <==> t.firstRowNull[i] || Stale(t, latest, i))
      && (forall i | 0 <= i < |t.measurements| ::
            st.firstRowNull[i] <==> t.firstRowNull[i] || (i < k && Stale(t, latest, i)))
  {
    var prev := FilterUpTo(t, latest, k - 1);
    var st := FilterUpTo(t, latest, k);
    var c := k - 1;
    FilterColumnStep(t, latest, k);
    var bit := t.firstRowNull[c] || Stale(t, latest, c);
    forall i | 0 <= i < k ensures st.filtered[i] <==> t.firstRowNull[i] || Stale(t, latest, i) {
      if i < c {
        assert st.filtered[i] == prev.filtered[i];
      }
    }
    forall i | 0 <= i < |t.measurements|
      ensures st.firstRowNull[i] <==> t.firstRowNull[i] || (i < k && Stale(t, latest, i))
    {
      if i != c {
        assert st.firstRowNull[i] == prev.firstRowNull[i];
      }
    }
  }

  /** Visiting column `k - 1`: its filtered bit and its first-row bit both become "null at the first row, or stale". */
  lemma FilterColumnStep(t: Tablet, latest: map<string, int>, k: nat)
    requires WellFormed(t) && |t.timestamps| > 0 && 0 < k <= |t.measurements|
    requires DistinctMeasurements(t)
    requires FilterUpTo(t, latest, k - 1).firstRowNull[k - 1] == t.firstRowNull[k - 1]
    ensures var prev := FilterUpTo(t, latest, k - 1); var st := FilterUpTo(t, latest, k);
      var bit := t.firstRowNull[k - 1] || Stale(t, latest, k - 1);
      && st.filtered == prev.filtered + [bit]
      && st.firstRowNull == prev.firstRowNull[k - 1 := bit]
  {
    UnvisitedLatest(t, latest, k);
  }

  /** Before column `k - 1` is visited, the filter's latest time of its path is still the cached one. */
  lemma UnvisitedLatest(t: Tablet, latest: map<string, int>, k: nat)
    requires WellFormed(t) && |t.timestamps| > 0 && 0 < k <= |t.measurements|
    requires DistinctMeasurements(t)
    ensures var prev := FilterUpTo(t, latest, k - 1); var path := ColumnPath(t, k - 1);
      && (path in prev.latest <==> path in latest)
      && (path in latest ==> prev.latest[path] == latest[path])
  {
    FilterLatest(t, latest, k - 1);
    ValuedPathsStep(t, k);
  }

  /** The columns not yet visited keep their first-row bits. */
  lemma {:induction false} FilterAhead(t: Tablet, latest: map<string, int>, k: nat)
    requires WellFormed(t) && |t.timestamps| > 0 && k <= |t.measurements|
    ensures forall i | k <= i < |t.measurements| :: FilterUpTo(t, latest, k).firstRowNull[i] == t.firstRowNull[i]
  {
    if k > 0 {
      FilterAhead(t, latest, k - 1);
    }
  }

  /** Each path's filter consumes the row's time once some valued column of that path is visited. */
  lemma {:induction false} FilterLatest(t: Tablet, latest: map<string, int>, k: nat)
    requires WellFormed(t) && |t.timestamps| > 0 && k <= |t.measurements|
    requires DistinctMeasurements(t)
    ensures var st := FilterUpTo(t, latest, k);
      && st.latest.Keys == latest.Keys
      && (forall p | p in latest ::
            st.latest[p] == if p in ValuedPaths(t, k) then Max(latest[p], t.timestamps[0]) else latest[p])
  {
    if k > 0 {
      FilterLatest(t, latest, k - 1);
      FilterAhead(t, latest, k - 1);
      ValuedPathsStep(t, k);
    }
  }

  /** Visiting column `k - 1` adds its path, not seen before, when its first row is valued. */
  lemma ValuedPathsStep(t: Tablet, k: nat)
    requires WellFormed(t) && 0 < k <= |t.measurements| && DistinctMeasurements(t)
    ensures ColumnPath(t, k - 1) !in ValuedPaths(t, k - 1)
    ensures ValuedPaths(t, k) == ValuedPaths(t, k - 1) + (if t.firstRowNull[k - 1] then {} else {ColumnPath(t, k - 1)})
  {
    var i := k - 1;
    var path := ColumnPath(t, i);
    if path in ValuedPaths(t, k - 1) {
      var j :| 0 <= j < k - 1 && !t.firstRowNull[j] && ColumnPath(t, j) == path;
      ColumnPathInjective(t, i, j);
    }
    forall p | p in ValuedPaths(t, k) ensures p in ValuedPaths(t, k - 1) || (!t.firstRowNull[i] && p == path) {
      var j :| 0 <= j < k && !t.firstRowNull[j] && ColumnPath(t, j) == p;
      if j < k - 1 { assert p in ValuedPaths(t, k - 1); }
    }
  }

  /** A tablet is dropped exactly when every column is null in its first row or stale. */
  lemma DroppedMeaning(t: Tablet, latest: map<string, int>)
    requires WellFormed(t) && |t.timestamps| > 0 && DistinctMeasurements(t)
    ensures AllMarked(FilterUpTo(t, latest, |t.measurements|).filtered) <==>
      forall i | 0 <= i < |t.measurements| :: t.firstRowNull[i] || Stale(t, latest, i)
  {
    FilterMeaning(t, latest, |t.measurements|);
  }

  /**
   * The filter as the source writes it: every column reads the bitmap at
   * index `columnCount` (one past the last), and the freshness test reads the
   * timestamp at the column's index instead of the row's. `slots` is the
   * tablet's whole timestamp array: its first entries are the row times, and
   * any entries past the row count are unused capacity. The second defect
   * can be seen on its own by passing `perColumnBitmap`.
   */
  function FilterAsWritten(t: Tablet, slots: seq<int>, latest: map<string, int>, k: nat, perColumnBitmap: bool): (r: Result<FilterState, string>)
    requires k <= |t.measurements| && |t.timestamps| <= |slots| && slots[..|t.timestamps|] == t.timestamps
    ensures r.Success? ==> |r.value.filtered| == k && |r.value.firstRowNull| == |t.firstRowNull|
    ensures r.Success? ==> r.value.latest.Keys == latest.Keys
  {
    if k == 0 then Success(FilterState([], t.firstRowNull, latest))
    else
      match FilterAsWritten(t, slots, latest, k - 1, perColumnBitmap)
      case Failure(e) => Failure(e)
      case Success(st) =>
        var i := k - 1;
        var b := if perColumnBitmap then i else |t.measurements|;
        if b >= |st.firstRowNull| then Failure("ArrayIndexOutOfBoundsException")
        else if st.firstRowNull[b] then Success(st.(filtered := st.filtered + [true]))
        else
          var path := ColumnPath(t, i);
          if path !in st.latest then Success(st.(filtered := st.filtered + [false]))
          else if i >= |slots| then Failure("ArrayIndexOutOfBoundsException")
          else if !(slots[i] > st.latest[path]) then
            Success(FilterState(st.filtered + [true], st.firstRowNull[b := true], st.latest))
          else Success(FilterState(st.filtered + [false], st.firstRowNull, st.latest[path := slots[i]]))
  }

  /** As written, any well-formed tablet with a column makes the filter throw, whatever its array's capacity. */
  lemma {:induction false} BitmapIndexAlwaysThrows(t: Tablet, slots: seq<int>, latest: map<string, int>, k: nat)
    requires WellFormed(t) && 0 < k <= |t.measurements|
    requires |t.timestamps| <= |slots| && slots[..|t.timestamps|] == t.timestamps
    ensures FilterAsWritten(t, slots, latest, k, false).Failure?
  {
    if k > 1 {
      BitmapIndexAlwaysThrows(t, slots, latest, k - 1);
    }
  }

  /**
   * With the bitmap index corrected, indexing the timestamps by column still
   * goes wrong on a one-row tablet whose second column has a filter, where the
   * corrected filter keeps both columns and consumes time 5: with a one-slot
   * array the read throws, and with a second, unused slot (zero in a fresh
   * Java array) the column is wrongly filtered and marked null.
   */
  lemma ColumnTimestampCounterexample()
    ensures var t := Tablet("root.d", ["s1", "s2"], [5], [false, false]);
      var latest := map["root.d.s2" := 1];
      && FilterUpTo(t, latest, 2) == FilterState([false, false], [false, false], map["root.d.s2" := 5])
      && FilterAsWritten(t, [5], latest, 2, true).Failure?
      && FilterAsWritten(t, [5, 0], latest, 2, true) == Success(FilterState([false, true], [false, true], latest))
  {
    var t := Tablet("root.d", ["s1", "s2"], [5], [false, false]);
    var latest := map["root.d.s2" := 1];
    assert ColumnPath(t, 0) == "root.d.s1";
    assert ColumnPath(t, 1) == "root.d.s2";
    assert "root.d.s1" !in latest;
    var one, two := [5], [5, 0];
    assert one[..1] == t.timestamps && two[..1] == t.timestamps;
    assert FilterAsWritten(t, one, latest, 0, true) == Success(FilterState([], [false, false], latest));
    assert FilterAsWritten(t, two, latest, 0, true) == Success(FilterState([], [false, false], latest));
    var r1 := FilterAsWritten(t, one, latest, 1, true);
    assert r1.Success? && r1.value.filtered == [false];
    assert r1 == Success(FilterState([false], [false, false], latest));
    var q1 := FilterAsWritten(t, two, latest, 1, true);
    assert q1.Success? && q1.value.filtered == [false];
    assert q1 == Success(FilterState([false], [false, false], latest));
    assert !(two[1] > latest["root.d.s2"]);
    assert [false, false][1 := true] == [false, true];
    assert FilterAsWritten(t, two, latest, 2, true)
      == Success(FilterState([false] + [true], [false, false][1 := true], latest));
    assert [false] + [true] == [false, true];
    assert FilterAsWritten(t, [5, 0], latest, 2, true) == Success(FilterState([false, true], [false, true], latest));
    assert FilterUpTo(t, latest, 1) == FilterState([false], [false, false], latest);
  }

  // ---------------------------------------------------------------------------
  // The batch.
  // ---------------------------------------------------------------------------

  /** The tablets an event adds to the batch, given the consumed times of its cache. */
  function Appended(event: Event, latest: map<string, int>): seq<Tablet>
  {
    match event
    case TabletInsertionEvent(_, insertion) => ConvertToTablets(insertion)
    case TsFileInsertionEvent(_, parts) => ConvertAll(parts)
    case LastPointTabletEvent(_, tablet, _) =>
      if tablet.None? || !WellFormed(tablet.value) || |tablet.value.timestamps| == 0 then []
      else
        var st := FilterUpTo(tablet.value, latest, |tablet.value.measurements|);
        if AllMarked(st.filtered) then [] else [tablet.value.(firstRowNull := st.firstRowNull)]
    case OtherEvent(_) => []
  }

  function AppendedBy(event: Option<Event>, latest: map<string, int>): seq<Tablet>
  {
    if event.None? then [] else Appended(event.value, latest)
  }

  /** Whether the batch records the event (holds its reference and starts the timer for it). */
  predicate Records(event: Event)
  {
    || (event.TabletInsertionEvent? && ConvertToTablets(event.insertion) != [])
    || event.TsFileInsertionEvent?
  }

  /** The objects an event lets the batch change. */
  function CachesOf(event: Option<Event>): set<object>
  {
    if event.Some? && event.value.LastPointTabletEvent? then {event.value.cache} else {}
  }

  /** Last-point tablets must carry one bitmap per column and a row. */
  predicate Acceptable(event: Event)
  {
    event.LastPointTabletEvent? && event.tablet.Some? ==>
      WellFormed(event.tablet.value) && |event.tablet.value.timestamps| > 0
  }

  class TabletEventBatch {
    const maxDelayInMs: int
    const maxBatchSizeInBytes: int
    /** The size in bytes of a tablet (computed outside this model). */
    const tabletSize: Tablet -> nat
    var enrichedEvents: seq<Event>
    var tablets: seq<Tablet>
    var firstEventProcessingTime: int
    var totalBufferSize: int
    var isSealed: bool

    ghost predicate Valid()
      reads this
    {
      && IsInt(maxDelayInMs) && IsLong(maxBatchSizeInBytes) && IsLong(firstEventProcessingTime)
      && totalBufferSize == SumSizes(tabletSize, tablets)
      && (enrichedEvents == [] ==> firstEventProcessingTime == LONG_MIN)
    }

    constructor (maxDelayInMs: int, maxBatchSizeInBytes: int, tabletSize: Tablet -> nat)
      requires IsInt(maxDelayInMs) && IsLong(maxBatchSizeInBytes)
      ensures Valid()
      ensures this.maxDelayInMs == maxDelayInMs && this.maxBatchSizeInBytes == maxBatchSizeInBytes
      ensures this.tabletSize == tabletSize
      ensures enrichedEvents == [] && tablets == [] && totalBufferSize == 0 && !isSealed
      ensures firstEventProcessingTime == LONG_MIN
    {
      this.maxDelayInMs := maxDelayInMs;
      this.maxBatchSizeInBytes := maxBatchSizeInBytes;
      this.tabletSize := tabletSize;
      enrichedEvents := [];
      tablets := [];
      firstEventProcessingTime := LONG_MIN;
      totalBufferSize := 0;
      isSealed := false;
    }

    /**
     * Whether to seal at clock `now`: the size threshold alone decides while the
     * timer is unset, because the unset time subtracted from a non-negative
     * clock wraps to a large negative `long`.
     */
    function ShouldEmit(now: int): (r: bool)
      requires Valid() && IsLong(now)
      reads this
      ensures totalBufferSize >= maxBatchSizeInBytes ==> r
      ensures firstEventProcessingTime == LONG_MIN && 0 <= now <= TIMER_HORIZON ==>
        (r <==> totalBufferSize >= maxBatchSizeInBytes)
      ensures firstEventProcessingTime != LONG_MIN && IsLong(now - firstEventProcessingTime) ==>
        (r <==> totalBufferSize >= maxBatchSizeInBytes || now - firstEventProcessingTime >= maxDelayInMs)
    {
      totalBufferSize >= maxBatchSizeInBytes || LongSub(now, firstEventProcessingTime) >= maxDelayInMs
    }

    /** Adds the tablets of one event; `now` is the clock read if the timer starts. */
    method ConstructBatch(event: Event, now: int)
      requires Valid() && IsLong(now) && Acceptable(event)
      modifies this, CachesOf(Some(event))
      ensures Valid()
      ensures isSealed == old(isSealed)
      ensures tablets == old(tablets) + Appended(event, if event.LastPointTabletEvent? then old(event.cache.latest) else map[])
      ensures totalBufferSize >= old(totalBufferSize)
      ensures enrichedEvents == old(enrichedEvents) + if Records(event) then [event] else []
      ensures firstEventProcessingTime ==
        if Records(event) && old(firstEventProcessingTime) == LONG_MIN then now else old(firstEventProcessingTime)
      ensures event.LastPointTabletEvent? && event.tablet.Some? ==>
        event.cache.latest == FilterUpTo(event.tablet.value, old(event.cache.latest), |event.tablet.value.measurements|).latest
      ensures event.LastPointTabletEvent? && event.tablet.None? ==> event.cache.latest == old(event.cache.latest)
    {
      match event {
        case TabletInsertionEvent(_, insertion) =>
          var current := ConvertToTablets(insertion);
          if current != [] {
            AddTablets(current);
            Record(event, now);
          }
        case TsFileInsertionEvent(_, parts) =>
          AddFileTablets(parts);
          Record(event, now);
        case LastPointTabletEvent(_, tablet, cache) =>
          if tablet.Some? {
            var dropped, marked := LastPointFilter(tablet.value, cache);
            if !dropped {
              AddTablets([marked]);
            }
          }
        case OtherEvent(_) =>
      }
    }

    /** Holds the event and starts the timer unless it runs already. */
    method Record(event: Event, now: int)
      requires Valid() && IsLong(now)
      modifies this
      ensures Valid()
      ensures enrichedEvents == old(enrichedEvents) + [event]
      ensures firstEventProcessingTime ==
        if old(firstEventProcessingTime) == LONG_MIN then now else old(firstEventProcessingTime)
      ensures tablets == old(tablets) && totalBufferSize == old(totalBufferSize) && isSealed == old(isSealed)
    {
      enrichedEvents := enrichedEvents + [event];
      if firstEventProcessingTime == LONG_MIN {
        firstEventProcessingTime := now;
      }
    }

    /** Adds the tablets of each part of a file-ingestion event. */
    method AddFileTablets(parts: seq<TabletInsertion>)
      requires Valid()
      modifies this
      ensures Valid()
      ensures tablets == old(tablets) + ConvertAll(parts)
      ensures totalBufferSize >= old(totalBufferSize)
      ensures enrichedEvents == old(enrichedEvents) && isSealed == old(isSealed)
      ensures firstEventProcessingTime == old(firstEventProcessingTime)
    {
      var current := ConvertEach(parts);
      AddTablets(current);
    }

    /** The tablets of each part, collected part after part. */
    static method ConvertEach(parts: seq<TabletInsertion>) returns (current: seq<Tablet>)
      ensures current == ConvertAll(parts)
    {
      current := [];
      var j := 0;
      while j < |parts|
        invariant 0 <= j <= |parts|
        invariant current == ConvertParts(parts, j)
      {
        current := current + ConvertToTablets(parts[j]);
        j := j + 1;
      }
    }

    method AddTablets(current: seq<Tablet>)
      requires Valid()
      modifies this
      ensures Valid()
      ensures tablets == old(tablets) + current
      ensures totalBufferSize == old(totalBufferSize) + SumSizes(tabletSize, current)
      ensures enrichedEvents == old(enrichedEvents) && isSealed == old(isSealed)
      ensures firstEventProcessingTime == old(firstEventProcessingTime)
      ensures totalBufferSize >= old(totalBufferSize)
    {
      SumSizesAppend(tabletSize, tablets, current);
      tablets := tablets + current;
      totalBufferSize := totalBufferSize + SumSizes(tabletSize, current);
    }

    /**
     * The last-point filter over the columns of `tablet`: returns whether
     * every column is filtered, and the tablet with its stale columns marked
     * null in the first row.
     */
    static method LastPointFilter(tablet: Tablet, cache: LastPointCache) returns (dropped: bool, marked: Tablet)
      requires WellFormed(tablet) && |tablet.timestamps| > 0
      modifies cache
      ensures var st := FilterUpTo(tablet, old(cache.latest), |tablet.measurements|);
        && dropped == AllMarked(st.filtered)
        && marked == tablet.(firstRowNull := st.firstRowNull)
        && cache.latest == st.latest
    {
      ghost var before := cache.latest;
      var columnCount := |tablet.measurements|;
      var columnFilter: seq<bool> := [];
      var firstRowNull := tablet.firstRowNull;
      var i := 0;
      while i < columnCount
        invariant 0 <= i <= columnCount
        invariant FilterUpTo(tablet, before, i) == FilterState(columnFilter, firstRowNull, cache.latest)
      {
        if firstRowNull[i] {
          columnFilter := columnFilter + [true];
        } else {
          var path := ColumnPath(tablet, i);
          var stale := false;
          if path in cache.latest {
            var newer := cache.FilterAndMarkAsConsumed(path, tablet.timestamps[0]);
            stale := !newer;
          }
          if stale {
            columnFilter := columnFilter + [true];
            firstRowNull := firstRowNull[i := true];
          } else {
            columnFilter := columnFilter + [false];
          }
        }
        i := i + 1;
      }
      dropped := AllMarked(columnFilter);
      marked := tablet.(firstRowNull := firstRowNull);
    }

    /**
     * Feeds one event (or none) at clock `now`: a sealed batch ignores it;
     * otherwise the event is added and the batch seals, emitting itself, as
     * soon as a threshold is reached.
     */
    method OnEvent(event: Option<Event>, now: int) returns (r: seq<SealedBatch>)
      requires Valid() && IsLong(now) && (event.Some? ==> Acceptable(event.value))
      modifies this, CachesOf(event)
      ensures Valid()
      ensures old(isSealed) ==> r == [] && isSealed && unchanged(this) && unchanged(CachesOf(event))
      ensures !old(isSealed) ==>
        && tablets == old(tablets) + AppendedBy(event, if event.Some? && event.value.LastPointTabletEvent? then old(event.value.cache.latest) else map[])
        && enrichedEvents == old(enrichedEvents) + (if event.Some? && Records(event.value) then [event.value] else [])
        && firstEventProcessingTime ==
             (if event.Some? && Records(event.value) && old(firstEventProcessingTime) == LONG_MIN then now
              else old(firstEventProcessingTime))
        && isSealed == ShouldEmit(now)
      ensures !old(isSealed) && event.Some? && event.value.LastPointTabletEvent? && event.value.tablet.Some? ==>
        var t := event.value.tablet.value;
        event.value.cache.latest == FilterUpTo(t, old(event.value.cache.latest), |t.measurements|).latest
      ensures !old(isSealed) && event.Some? && event.value.LastPointTabletEvent? && event.value.tablet.None? ==>
        event.value.cache.latest == old(event.value.cache.latest)
      ensures |r| <= 1 && (r != [] <==> isSealed && !old(isSealed))
      ensures r != [] ==> r == [SealedBatch(tablets, Ids(enrichedEvents))]
    {
      if isSealed {
        return [];
      }
      if event.Some? {
        ConstructBatch(event.value, now);
      }
      if ShouldEmit(now) {
        r := [SealedBatch(tablets, Ids(enrichedEvents))];
        isSealed := true;
        return;
      }
      r := [];
    }

    /** Acknowledged: each recorded event loses one reference held under the batch's name. */
    method Ack(tracker: ReferenceTracker)
      modifies tracker
      ensures tracker.counts == DecreaseAll(old(tracker.counts), Ids(enrichedEvents), HOLDER)
    {
      DecreaseEach(tracker, Ids(enrichedEvents));
    }

    /** Discarded: each recorded event has all of its references cleared. */
    method Cleanup(tracker: ReferenceTracker)
      modifies tracker
      ensures tracker.counts == ClearAll(old(tracker.counts), Ids(enrichedEvents))
    {
      ClearEach(tracker, Ids(enrichedEvents));
    }
  }

  method DecreaseEach(tracker: ReferenceTracker, ids: seq<EventId>)
    modifies tracker
    ensures tracker.counts == DecreaseAll(old(tracker.counts), ids, HOLDER)
  {
    var i := 0;
    while i < |ids|
      invariant 0 <= i <= |ids|
      invariant tracker.counts == DecreaseAll(old(tracker.counts), ids[..i], HOLDER)
    {
      DecreaseAllStep(old(tracker.counts), ids, i, HOLDER);
      var _ := tracker.DecreaseReferenceCount(ids[i], HOLDER);
      i := i + 1;
    }
    assert ids[..i] == ids;
  }

  method ClearEach(tracker: ReferenceTracker, ids: seq<EventId>)
    modifies tracker
    ensures tracker.counts == ClearAll(old(tracker.counts), ids)
  {
    var i := 0;
    while i < |ids|
      invariant 0 <= i <= |ids|
      invariant tracker.counts == ClearAll(old(tracker.counts), ids[..i])
    {
      ClearAllStep(old(tracker.counts), ids, i);
      tracker.ClearReferenceCount(ids[i]);
      i := i + 1;
    }
    assert ids[..i] == ids;
  }

  /**
   * Acknowledging a batch whose recorded events are distinct and held under
   * the batch's name takes exactly one reference from each of them.
   */
  lemma AckReleasesEachOnce(rc: RefCounts, events: seq<Event>)
    requires Distinct(Ids(events))
    requires forall i | 0 <= i < |events| :: HOLDER in Held(rc, events[i].id)
    ensures forall i | 0 <= i < |events| ::
      Count(DecreaseAll(rc, Ids(events), HOLDER), events[i].id) == Count(rc, events[i].id) - 1
    ensures forall x | x !in Ids(events) :: Held(DecreaseAll(rc, Ids(events), HOLDER), x) == Held(rc, x)
  {
    DecreaseAllOnce(rc, Ids(events), HOLDER);
  }
}

/**
 * Device-time ordering of table-model tablets, as used when merging buffered
 * tablets into files: a tablet's rows are split by device into consecutive
 * slices; tablets of one table are kept in a list ordered by comparing the
 * first timestamps of shared devices; and a file takes the longest prefix of
 * each list in which no device's time range overlaps an earlier one.
 */
module DeviceOrder {
  import opened Wrappers
  import opened JavaInts

  /** The rows `[previous slice's end, end)` of a tablet belong to `device`. */
  datatype Slice = Slice(device: int, end: nat)

  /** A tablet of a table, with its row timestamps and its split by device (computed outside this model). */
  datatype Tablet = Tablet(tableName: string, timestamps: seq<int>, slices: seq<Slice>)

  /** The first row of slice `i`. */
  function Start(t: Tablet, i: nat): nat
    requires i < |t.slices|
  {
    if i == 0 then 0 else t.slices[i - 1].end
  }

  /**
   * What the model assumes of the split by device, which is computed outside
   * it: non-empty consecutive slices within the rows, devices in ascending
   * order (so each device once), and a slice's first time at most its last.
   * The sealing loop ends only under this assumption: a device seen twice
   * with a later slice starting before the earlier one ends lets no tablet
   * of the list into a file.
   */
  ghost predicate WellFormed(t: Tablet)
  {
    && (forall i {:trigger Start(t, i)} | 0 <= i < |t.slices| :: Start(t, i) < t.slices[i].end <= |t.timestamps|)
    && (forall i, j | 0 <= i < j < |t.slices| :: t.slices[i].device < t.slices[j].device)
    && (forall i {:trigger Start(t, i)} | 0 <= i < |t.slices| && t.slices[i].end <= |t.timestamps| ::
          t.timestamps[Start(t, i)] <= t.timestamps[t.slices[i].end - 1])
  }

  ghost predicate AllWellFormed(ts: seq<Tablet>)
  {
    forall i | 0 <= i < |ts| :: WellFormed(ts[i])
  }

  function First(t: Tablet, i: nat): int
    requires WellFormed(t) && i < |t.slices|
  {
    t.timestamps[Start(t, i)]
  }

  /** Slice `i` lies within the rows and the next slice starts where it ends. */
  lemma SliceAt(t: Tablet, i: nat)
    requires WellFormed(t) && i < |t.slices|
    ensures Start(t, i) < t.slices[i].end <= |t.timestamps| && First(t, i) == t.timestamps[Start(t, i)]
    ensures i + 1 < |t.slices| ==> Start(t, i + 1) == t.slices[i].end
  {
  }

  function Last(t: Tablet, i: nat): int
    requires WellFormed(t) && i < |t.slices|
  {
    assert Start(t, i) < t.slices[i].end;
    t.timestamps[t.slices[i].end - 1]
  }


  /** The last slice of `key` among the first `n` of `s`, if any. */
  function FindUpTo(s: seq<Slice>, key: int, n: nat): (r: Option<nat>)
    requires n <= |s|
    ensures r.None? <==> forall j | 0 <= j < n :: s[j].device != key
    ensures r.Some? ==> r.value < n && s[r.value].device == key
  {
    if n == 0 then None
    else if s[n - 1].device == key then Some(n - 1)
    else FindUpTo(s, key, n - 1)
  }

  /** The slice of `key` in `s`, if any. */
  function Find(s: seq<Slice>, key: int): (r: Option<nat>)
    ensures r.None? <==> forall j | 0 <= j < |s| :: s[j].device != key
    ensures r.Some? ==> r.value < |s| && s[r.value].device == key
  {
    FindUpTo(s, key, |s|)
  }

  lemma FindAt(t: Tablet, j: nat)
    requires WellFormed(t) && j < |t.slices|
    ensures Find(t.slices, t.slices[j].device) == Some(j)
  {
  }

  // ---------------------------------------------------------------------------
  // compareDeviceID
  // ---------------------------------------------------------------------------

  /** Slice `i` of `a` is a device `b` shares, and it starts earlier in `a` than in `b`. */
  predicate Hit(a: Tablet, b: Tablet, i: nat)
    requires WellFormed(a) && WellFormed(b) && i < |a.slices|
  {
    var f := Find(b.slices, a.slices[i].device);
    f.Some? && First(a, i) < First(b, f.value)
  }

  /** Among the first `n` slices of `a`: how many are shared with `b` and start earlier in `a`. */
  function CountEarlier(a: Tablet, b: Tablet, n: nat): nat
    requires WellFormed(a) && WellFormed(b) && n <= |a.slices|
  {
    if n == 0 then 0 else CountEarlier(a, b, n - 1) + if Hit(a, b, n - 1) then 1 else 0
  }

  /** Among the first `n` slices of `a`: how many devices `b` shares. */
  function CountShared(a: Tablet, b: Tablet, n: nat): nat
    requires n <= |a.slices|
  {
    if n == 0 then 0 else CountShared(a, b, n - 1) + if Find(b.slices, a.slices[n - 1].device).Some? then 1 else 0
  }

  /** The comparison's meaning: the shared devices whose first time in `a` is earlier than in `b`. */
  function SharedEarlier(a: Tablet, b: Tablet): nat
    requires WellFormed(a) && WellFormed(b)
  {
    CountEarlier(a, b, |a.slices|)
  }

  function SharedDevices(a: Tablet, b: Tablet): nat
  {
    CountShared(a, b, |a.slices|)
  }

  /** The comparison never exceeds the number of shared devices, and is 0 when none is shared. */
  lemma {:induction false} EarlierAtMostShared(a: Tablet, b: Tablet, n: nat)
    requires WellFormed(a) && WellFormed(b) && n <= |a.slices|
    ensures CountEarlier(a, b, n) <= CountShared(a, b, n)
    ensures (forall i, j | 0 <= i < |a.slices| && 0 <= j < |b.slices| :: a.slices[i].device != b.slices[j].device)
      ==> CountShared(a, b, n) == 0
  {
    if n > 0 {
      EarlierAtMostShared(a, b, n - 1);
    }
  }

  lemma {:induction false} NoHitsFrom(a: Tablet, b: Tablet, lo: nat, n: nat)
    requires WellFormed(a) && WellFormed(b) && lo <= n <= |a.slices|
    requires forall i, j | lo <= i < |a.slices| && 0 <= j < |b.slices| :: a.slices[i].device != b.slices[j].device
    ensures CountEarlier(a, b, n) == CountEarlier(a, b, lo)
  {
    if n > lo {
      NoHitsFrom(a, b, lo, n - 1);
      var key := a.slices[n - 1].device;
      assert forall j | 0 <= j < |b.slices| :: b.slices[j].device != key;
      assert Find(b.slices, key).None?;
      assert !Hit(a, b, n - 1);
    }
  }

  /** The merge walk's position: every slice passed on one side has a smaller device than the other side's current one. */
  ghost predicate Behind(a: Tablet, b: Tablet, ai: nat, bi: nat)
    requires ai <= |a.slices| && bi <= |b.slices|
  {
    && (ai < |a.slices| ==> forall j | 0 <= j < bi :: b.slices[j].device < a.slices[ai].device)
    && (bi < |b.slices| ==> forall i | 0 <= i < ai :: a.slices[i].device < b.slices[bi].device)
  }

  /**
   * The state of the walk of `compareDeviceID`: the count so far over the
   * slices of `a` passed, the row where each side's current slice starts,
   * and the merge position.
   */
  ghost predicate Walk(a: Tablet, b: Tablet, ai: nat, bi: nat, aLast: int, bLast: int, count: int)
    requires WellFormed(a) && WellFormed(b)
  {
    && ai <= |a.slices| && bi <= |b.slices|
    && count == CountEarlier(a, b, ai)
    && (ai < |a.slices| ==> aLast == Start(a, ai))
    && (bi < |b.slices| ==> bLast == Start(b, bi))
    && Behind(a, b, ai, bi)
  }

  lemma MatchStep(a: Tablet, b: Tablet, ai: nat, bi: nat, aLast: int, bLast: int, count: int)
    requires WellFormed(a) && WellFormed(b) && Walk(a, b, ai, bi, aLast, bLast, count)
    requires ai < |a.slices| && bi < |b.slices| && a.slices[ai].device == b.slices[bi].device
    ensures Walk(a, b, ai + 1, bi + 1, a.slices[ai].end, b.slices[bi].end,
                 count + if First(a, ai) < First(b, bi) then 1 else 0)
  {
    FindAt(b, bi);
    SliceAt(a, ai);
    SliceAt(b, bi);
  }

  lemma SkipFirst(a: Tablet, b: Tablet, ai: nat, bi: nat, aLast: int, bLast: int, count: int)
    requires WellFormed(a) && WellFormed(b) && Walk(a, b, ai, bi, aLast, bLast, count)
    requires ai < |a.slices| && bi < |b.slices| && a.slices[ai].device < b.slices[bi].device
    ensures Walk(a, b, ai + 1, bi, a.slices[ai].end, bLast, count)
  {
    SliceAt(a, ai);
    assert Find(b.slices, a.slices[ai].device).None? by {
      forall j | 0 <= j < |b.slices| ensures b.slices[j].device != a.slices[ai].device {
        if j > bi {
          assert b.slices[bi].device < b.slices[j].device;
        }
      }
    }
  }

  lemma SkipSecond(a: Tablet, b: Tablet, ai: nat, bi: nat, aLast: int, bLast: int, count: int)
    requires WellFormed(a) && WellFormed(b) && Walk(a, b, ai, bi, aLast, bLast, count)
    requires ai < |a.slices| && bi < |b.slices| && a.slices[ai].device > b.slices[bi].device
    ensures Walk(a, b, ai, bi + 1, aLast, b.slices[bi].end, count)
  {
    SliceAt(b, bi);
  }

  lemma WalkDone(a: Tablet, b: Tablet, ai: nat, bi: nat)
    requires WellFormed(a) && WellFormed(b) && ai <= |a.slices| && bi <= |b.slices| && Behind(a, b, ai, bi)
    requires ai == |a.slices| || bi == |b.slices|
    ensures CountEarlier(a, b, |a.slices|) == CountEarlier(a, b, ai)
  {
    if ai < |a.slices| {
      forall i, j | ai <= i < |a.slices| && 0 <= j < |b.slices| ensures a.slices[i].device != b.slices[j].device {
        if i > ai {
          assert a.slices[ai].device < a.slices[i].device;
        }
      }
      NoHitsFrom(a, b, ai, |a.slices|);
    }
  }

  /**
   * `compareDeviceID`: walks both slice lists in device order, counting the
   * shared devices whose first row in `first` is earlier than in `second`.
   */
  method CompareDeviceID(first: Tablet, second: Tablet) returns (bCount: int)
    requires WellFormed(first) && WellFormed(second)
    ensures bCount == SharedEarlier(first, second)
    ensures 0 <= bCount <= SharedDevices(first, second)
  {
    var listA, listB := first.slices, second.slices;
    bCount := 0;
    var aIndex, bIndex := 0, 0;
    var aLastTimeIndex, bLastTimeIndex := 0, 0;
    while aIndex < |listA| && bIndex < |listB|
      invariant Walk(first, second, aIndex, bIndex, aLastTimeIndex, bLastTimeIndex, bCount)
      decreases |listA| - aIndex + |listB| - bIndex
    {
      var a, b := listA[aIndex], listB[bIndex];
      SliceAt(first, aIndex);
      SliceAt(second, bIndex);
      if a.device == b.device {
        MatchStep(first, second, aIndex, bIndex, aLastTimeIndex, bLastTimeIndex, bCount);
        var aTime := first.timestamps[aLastTimeIndex];
        var bTime := second.timestamps[bLastTimeIndex];
        if aTime < bTime {
          bCount := bCount + 1;
        }
        aLastTimeIndex := a.end;
        bLastTimeIndex := b.end;
        aIndex := aIndex + 1;
        bIndex := bIndex + 1;
        continue;
      }
      if a.device > b.device {
        SkipSecond(first, second, aIndex, bIndex, aLastTimeIndex, bLastTimeIndex, bCount);
        bLastTimeIndex := b.end;
        bIndex := bIndex + 1;
        continue;
      }
      SkipFirst(first, second, aIndex, bIndex, aLastTimeIndex, bLastTimeIndex, bCount);
      aLastTimeIndex := a.end;
      aIndex := aIndex + 1;
    }
    WalkDone(first, second, aIndex, bIndex);
    EarlierAtMostShared(first, second, |listA|);
  }

  // ---------------------------------------------------------------------------
  // writerPairToList
  // ---------------------------------------------------------------------------

  /** Element `i` compares nonzero with the new tablet, and its predecessor compared 0. */
  predicate RiseAt(list: seq<Tablet>, t: Tablet, i: nat)
    requires AllWellFormed(list) && WellFormed(t) && 1 <= i < |list|
  {
    SharedEarlier(list[i - 1], t) == 0 && SharedEarlier(list[i], t) != 0
  }

  /** Where the new tablet goes: right after the first rise at or after `i`, else at the end. */
  function InsertionPoint(list: seq<Tablet>, t: Tablet, i: nat): (p: nat)
    requires AllWellFormed(list) && WellFormed(t) && 1 <= i
    ensures p <= |list|
    decreases |list| - i
  {
    if i >= |list| then |list|
    else if RiseAt(list, t, i) then i + 1
    else InsertionPoint(list, t, i + 1)
  }

  /** The insertion point is after the first rise, or the end when there is none. */
  lemma {:induction false} InsertionPointMeaning(list: seq<Tablet>, t: Tablet, i: nat)
    requires AllWellFormed(list) && WellFormed(t) && 1 <= i
    ensures var p := InsertionPoint(list, t, i);
      || (p == |list| && forall k | i <= k < |list| :: !RiseAt(list, t, k))
      || (i + 1 <= p <= |list| && RiseAt(list, t, p - 1) && forall k | i <= k < p - 1 :: !RiseAt(list, t, k))
    decreases |list| - i
  {
    if i < |list| && !RiseAt(list, t, i) {
      InsertionPointMeaning(list, t, i + 1);
    }
  }

  /**
   * `writerPairToList`: the new tablet goes right after the first element
   * that compares nonzero while its predecessor compared 0, or at the end; no
   * other element moves.
   */
  method WriterPairToList(list: seq<Tablet>, t: Tablet) returns (r: seq<Tablet>)
    requires AllWellFormed(list) && WellFormed(t)
    ensures var p := InsertionPoint(list, t, 1);
      && r == list[..p] + [t] + list[p..]
      && |r| == |list| + 1 && r[p] == t && r[..p] + r[p + 1..] == list
    ensures multiset(r) == multiset(list) + multiset{t}
    ensures AllWellFormed(r)
  {
    ghost var p := InsertionPoint(list, t, 1);
    var position := |list|;
    if list != [] {
      var lastResult := INT_MAX;
      var i := 0;
      while i < |list|
        invariant 0 <= i <= |list|
        invariant i == 0 ==> lastResult == INT_MAX
        invariant i > 0 ==> lastResult == SharedEarlier(list[i - 1], t) && p == InsertionPoint(list, t, i)
        invariant position == |list|
      {
        var result := CompareDeviceID(list[i], t);
        if 0 < i {
          InsertionStep(list, t, i);
        }
        if lastResult == 0 && result != 0 {
          position := i + 1;
          break;
        }
        lastResult := result;
        i := i + 1;
      }
      assert position == p;
    }
    r := list[..position] + [t] + list[position..];
    Inserted(list, t, p);
  }

  lemma InsertionStep(list: seq<Tablet>, t: Tablet, i: nat)
    requires AllWellFormed(list) && WellFormed(t) && 1 <= i < |list|
    ensures InsertionPoint(list, t, i) ==
      if SharedEarlier(list[i - 1], t) == 0 && SharedEarlier(list[i], t) != 0 then i + 1 else InsertionPoint(list, t, i + 1)
  {
  }

  /** Inserting one element at `p` keeps every other element, in order. */
  lemma Inserted(list: seq<Tablet>, t: Tablet, p: nat)
    requires AllWellFormed(list) && WellFormed(t) && p <= |list|
    ensures var r := list[..p] + [t] + list[p..];
      && |r| == |list| + 1 && r[p] == t && r[..p] + r[p + 1..] == list
      && multiset(r) == multiset(list) + multiset{t}
      && AllWellFormed(r)
      && forall k | 0 <= k < |r| :: r[k] == t || r[k] in list
  {
    var r := list[..p] + [t] + list[p..];
    assert r[..p] == list[..p];
    assert r[p + 1..] == list[p..];
    assert list[..p] + list[p..] == list;
    calc {
      multiset(r);
      multiset(list[..p]) + multiset{t} + multiset(list[p..]);
      multiset(list[..p] + list[p..]) + multiset{t};
    }
    forall k | 0 <= k < |r| ensures WellFormed(r[k]) {
      if k < p {
        assert r[k] == list[k];
      } else if k > p {
        assert r[k] == list[k - 1];
      }
    }
  }

  // ---------------------------------------------------------------------------
  // timestampsAreNonOverlapping and the prefix of a list that fits one file
  // ---------------------------------------------------------------------------

  /** Every slice starts after the last time recorded for its device. */
  predicate NonOverlapping(t: Tablet, last: map<int, int>)
    requires WellFormed(t)
  {
    forall i | 0 <= i < |t.slices| :: t.slices[i].device in last ==> last[t.slices[i].device] < First(t, i)
  }

  /** The recorded last times after the first `n` slices of `t`. */
  function RecordUpTo(t: Tablet, last: map<int, int>, n: nat): map<int, int>
    requires WellFormed(t) && n <= |t.slices|
  {
    if n == 0 then last else RecordUpTo(t, last, n - 1)[t.slices[n - 1].device := Last(t, n - 1)]
  }

  function Record(t: Tablet, last: map<int, int>): map<int, int>
    requires WellFormed(t)
  {
    RecordUpTo(t, last, |t.slices|)
  }

  /** After the first `n` slices: each of their devices holds its slice's last time, and no other key changes. */
  lemma {:induction false} RecordUpToFacts(t: Tablet, last: map<int, int>, n: nat)
    requires WellFormed(t) && n <= |t.slices|
    ensures forall i | 0 <= i < n ::
      (t.slices[i].device in RecordUpTo(t, last, n) && RecordUpTo(t, last, n)[t.slices[i].device] == Last(t, i))
    ensures forall k | (forall i | 0 <= i < n :: t.slices[i].device != k) ::
      (k in RecordUpTo(t, last, n) <==> k in last) && (k in last ==> RecordUpTo(t, last, n)[k] == last[k])
  {
    if n > 0 {
      RecordUpToFacts(t, last, n - 1);
      forall i | 0 <= i < n - 1 ensures t.slices[i].device != t.slices[n - 1].device {
        assert t.slices[i].device < t.slices[n - 1].device;
      }
    }
  }

  /** Before slice `i` is recorded, its device still holds what `last` held. */
  lemma LookupBeforeRecord(t: Tablet, last: map<int, int>, i: nat)
    requires WellFormed(t) && i < |t.slices|
    ensures var d := t.slices[i].device;
      && (d in RecordUpTo(t, last, i) <==> d in last)
      && (d in last ==> RecordUpTo(t, last, i)[d] == last[d])
  {
    RecordUpToFacts(t, last, i);
    forall k | 0 <= k < i ensures t.slices[k].device != t.slices[i].device {
      assert t.slices[k].device < t.slices[i].device;
    }
  }

  /**
   * `timestampsAreNonOverlapping`: false exactly when some slice starts at or
   * before the time recorded for its device; when true, each slice's last time
   * is recorded for its device.
   */
  method TimestampsAreNonOverlapping(t: Tablet, last: map<int, int>) returns (ok: bool, recorded: map<int, int>)
    requires WellFormed(t)
    ensures ok <==> NonOverlapping(t, last)
    ensures ok ==> recorded == Record(t, last)
  {
    recorded := last;
    var currentTimestampIndex := 0;
    var i := 0;
    while i < |t.slices|
      invariant 0 <= i <= |t.slices|
      invariant recorded == RecordUpTo(t, last, i)
      invariant i < |t.slices| ==> currentTimestampIndex == Start(t, i)
      invariant forall k | 0 <= k < i :: t.slices[k].device in last ==> last[t.slices[k].device] < First(t, k)
    {
      var slice := t.slices[i];
      LookupBeforeRecord(t, last, i);
      if slice.device in recorded && recorded[slice.device] >= t.timestamps[currentTimestampIndex] {
        ok := false;
        return;
      }
      currentTimestampIndex := slice.end;
      recorded := recorded[slice.device := t.timestamps[currentTimestampIndex - 1]];
      i := i + 1;
    }
    ok := true;
  }

  /** How many leading tablets of `list` fit one file, given the recorded last times. */
  function AcceptFrom(list: seq<Tablet>, last: map<int, int>): (n: nat)
    requires AllWellFormed(list)
    ensures n <= |list|
  {
    if list == [] then 0
    else if NonOverlapping(list[0], last) then 1 + AcceptFrom(list[1..], Record(list[0], last))
    else 0
  }

  /** The prefix for a file starts from no recorded times, so it takes at least the first tablet. */
  function PrefixLength(list: seq<Tablet>): (n: nat)
    requires AllWellFormed(list)
    ensures n <= |list| && (list != [] ==> n >= 1)
  {
    AcceptFrom(list, map[])
  }

  /** Within `ts`, a device's time range never starts at or before an earlier tablet's range of it ends. */
  ghost predicate TimeOrdered(ts: seq<Tablet>)
    requires AllWellFormed(ts)
  {
    forall i, j, si, sj | 0 <= i < j < |ts| && 0 <= si < |ts[i].slices| && 0 <= sj < |ts[j].slices|
      && ts[i].slices[si].device == ts[j].slices[sj].device ::
      Last(ts[i], si) < First(ts[j], sj)
  }

  /** `last` records, for every device of `done`, a time at or after each of its slices. */
  ghost predicate Covers(last: map<int, int>, done: seq<Tablet>)
    requires AllWellFormed(done)
  {
    forall i, s | 0 <= i < |done| && 0 <= s < |done[i].slices| ::
      done[i].slices[s].device in last && Last(done[i], s) <= last[done[i].slices[s].device]
  }

  lemma {:induction false} AcceptStep(done: seq<Tablet>, last: map<int, int>, t: Tablet)
    requires AllWellFormed(done) && WellFormed(t) && Covers(last, done) && TimeOrdered(done)
    requires NonOverlapping(t, last)
    ensures AllWellFormed(done + [t]) && Covers(Record(t, last), done + [t]) && TimeOrdered(done + [t])
  {
    var ts := done + [t];
    var m := Record(t, last);
    RecordUpToFacts(t, last, |t.slices|);
    assert AllWellFormed(ts) by {
      forall i | 0 <= i < |ts| ensures WellFormed(ts[i]) {
        if i < |done| { assert ts[i] == done[i]; }
      }
    }
    forall i, s | 0 <= i < |ts| && 0 <= s < |ts[i].slices|
      ensures ts[i].slices[s].device in m && Last(ts[i], s) <= m[ts[i].slices[s].device]
    {
      if i < |done| {
        assert ts[i] == done[i];
        var d := done[i].slices[s].device;
        var f := Find(t.slices, d);
        if f.Some? {
          assert First(t, f.value) <= Last(t, f.value);
        }
      }
    }
    forall i, j, si, sj | 0 <= i < j < |ts| && 0 <= si < |ts[i].slices| && 0 <= sj < |ts[j].slices|
      && ts[i].slices[si].device == ts[j].slices[sj].device
      ensures Last(ts[i], si) < First(ts[j], sj)
    {
      assert ts[i] == done[i];
      if j < |done| {
        assert ts[j] == done[j];
      }
    }
  }

  lemma TailWellFormed(ts: seq<Tablet>)
    requires AllWellFormed(ts) && ts != []
    ensures AllWellFormed(ts[1..])
  {
    forall i | 0 <= i < |ts| - 1 ensures WellFormed(ts[1..][i]) {
      assert ts[1..][i] == ts[i + 1];
    }
  }

  lemma {:induction false} AcceptOrdered(done: seq<Tablet>, last: map<int, int>, rest: seq<Tablet>)
    requires AllWellFormed(done) && AllWellFormed(rest) && Covers(last, done) && TimeOrdered(done)
    ensures AllWellFormed(done + rest[..AcceptFrom(rest, last)])
    ensures TimeOrdered(done + rest[..AcceptFrom(rest, last)])
    decreases |rest|
  {
    var n := AcceptFrom(rest, last);
    if n == 0 {
      assert done + rest[..n] == done;
    } else {
      var t, tail := rest[0], rest[1..];
      assert NonOverlapping(t, last);
      assert n - 1 == AcceptFrom(tail, Record(t, last));
      AcceptStep(done, last, t);
      TailWellFormed(rest);
      AcceptOrdered(done + [t], Record(t, last), tail);
      assert rest[..n] == [t] + tail[..n - 1];
      assert (done + [t]) + tail[..n - 1] == done + rest[..n];
    }
  }

  /** The prefix a file takes from one list has no overlapping device time ranges. */
  lemma PrefixIsTimeOrdered(list: seq<Tablet>)
    requires AllWellFormed(list)
    ensures AllWellFormed(list[..PrefixLength(list)]) && TimeOrdered(list[..PrefixLength(list)])
  {
    AcceptOrdered([], map[], list);
    assert [] + list[..PrefixLength(list)] == list[..PrefixLength(list)];
  }

  /** The prefix of `list` that fits one file: polls tablets while they do not overlap what was taken. */
  method TakePrefix(list: seq<Tablet>) returns (n: nat)
    requires AllWellFormed(list)
    ensures n == PrefixLength(list)
  {
    var deviceLastTimestampMap: map<int, int> := map[];
    n := 0;
    while n < |list|
      invariant 0 <= n <= |list|
      invariant AllWellFormed(list[n..])
      invariant PrefixLength(list) == n + AcceptFrom(list[n..], deviceLastTimestampMap)
    {
      var ok, recorded := TimestampsAreNonOverlapping(list[n], deviceLastTimestampMap);
      if !ok {
        return;
      }
      assert list[n..][1..] == list[n + 1..];
      deviceLastTimestampMap := recorded;
      n := n + 1;
    }
  }
}

/**
 * Reference counts of shared (enriched) events. Every reference is held under
 * a holder name, so that a release by a holder that holds nothing shows up as
 * an anomaly instead of corrupting the count. When the last holder lets go the
 * event is released for good: it can never be acquired again.
 */
module ReferenceCounting {

  type EventId = nat

  /** The reference state of all events: who holds each one, and which are released. */
  datatype RefCounts = RefCounts(holders: map<EventId, multiset<string>>, released: set<EventId>)

  function Held(rc: RefCounts, e: EventId): multiset<string>
  {
    if e in rc.holders then rc.holders[e] else multiset{}
  }

  function Count(rc: RefCounts, e: EventId): nat
  {
    |Held(rc, e)|
  }

  /** A released event is held by nobody. */
  ghost predicate Sound(rc: RefCounts)
  {
    forall e | e in rc.released :: Count(rc, e) == 0
  }

  function Initial(): (rc: RefCounts)
    ensures Sound(rc) && forall e :: Count(rc, e) == 0 && e !in rc.released
  {
    RefCounts(map[], {})
  }

  /**
   * `increaseReferenceCount(holder)`: refused for a released event, and when the
   * payload's resources cannot be pinned (`pinned` is false); otherwise one more
   * reference is held under `holder`.
   */
  function Increase(rc: RefCounts, e: EventId, holder: string, pinned: bool): (r: (bool, RefCounts))
    ensures r.0 <==> e !in rc.released && pinned
    ensures r.1.released == rc.released
    ensures Count(r.1, e) == if r.0 then Count(rc, e) + 1 else Count(rc, e)
    ensures r.0 ==> Held(r.1, e) == Held(rc, e) + multiset{holder}
    ensures forall x | x != e :: Held(r.1, x) == Held(rc, x)
    ensures Sound(rc) ==> Sound(r.1)
  {
    if e in rc.released || !pinned then (false, rc)
    else (true, rc.(holders := rc.holders[e := Held(rc, e) + multiset{holder}]))
  }

  /**
   * `decreaseReferenceCount(holder)`: a holder that holds nothing is an anomaly
   * and changes nothing; otherwise one of its references goes, and the event is
   * released exactly when that was the last reference.
   */
  function Decrease(rc: RefCounts, e: EventId, holder: string): (r: (bool, RefCounts))
    ensures r.0 <==> holder in Held(rc, e)
    ensures Count(r.1, e) == if r.0 then Count(rc, e) - 1 else Count(rc, e)
    ensures r.1.released == if r.0 && Count(rc, e) == 1 then rc.released + {e} else rc.released
    ensures forall x | x != e :: Held(r.1, x) == Held(rc, x)
    ensures Sound(rc) ==> Sound(r.1)
  {
    if holder !in Held(rc, e) then (false, rc)
    else
      var h := Held(rc, e) - multiset{holder};
      (true, RefCounts(rc.holders[e := h], if h == multiset{} then rc.released + {e} else rc.released))
  }

  /** `clearReferenceCount`: every reference is dropped at once and the event is released. */
  function Clear(rc: RefCounts, e: EventId): (r: RefCounts)
    ensures Count(r, e) == 0 && r.released == rc.released + {e}
    ensures forall x | x != e :: Held(r, x) == Held(rc, x)
    ensures Sound(rc) ==> Sound(r)
  {
    RefCounts(rc.holders[e := multiset{}], rc.released + {e})
  }

  /** Once released and let go by all holders, an event can neither be acquired nor released again. */
  lemma ReleasedIsFinal(rc: RefCounts, e: EventId, holder: string, pinned: bool)
    requires Sound(rc) && e in rc.released
    ensures Increase(rc, e, holder, pinned) == (false, rc)
    ensures Decrease(rc, e, holder) == (false, rc)
  {
    assert Count(rc, e) == 0;
  }

  /** A successful acquire followed by a release under the same holder restores the holders. */
  lemma {:induction false} IncreaseThenDecrease(rc: RefCounts, e: EventId, holder: string, pinned: bool)
    requires Increase(rc, e, holder, pinned).0
    ensures var mid := Increase(rc, e, holder, pinned).1;
      && Decrease(mid, e, holder).0
      && Held(Decrease(mid, e, holder).1, e) == Held(rc, e)
      && (forall x :: Count(Decrease(mid, e, holder).1, x) == Count(rc, x))
      && Decrease(mid, e, holder).1.released == if Count(rc, e) == 0 then rc.released + {e} else rc.released
  {
    var mid := Increase(rc, e, holder, pinned).1;
    assert Held(mid, e) == Held(rc, e) + multiset{holder};
    assert Held(mid, e) - multiset{holder} == Held(rc, e);
  }

  /** Release each of `events` once under `holder`, in order. */
  function DecreaseAll(rc: RefCounts, events: seq<EventId>, holder: string): RefCounts
  {
    if events == [] then rc
    else Decrease(DecreaseAll(rc, events[..|events| - 1], holder), events[|events| - 1], holder).1
  }

  /** Clear the references of each of `events`. */
  function ClearAll(rc: RefCounts, events: seq<EventId>): RefCounts
  {
    if events == [] then rc
    else Clear(ClearAll(rc, events[..|events| - 1]), events[|events| - 1])
  }

  lemma DecreaseAllStep(rc: RefCounts, events: seq<EventId>, i: nat, holder: string)
    requires i < |events|
    ensures DecreaseAll(rc, events[..i + 1], holder) == Decrease(DecreaseAll(rc, events[..i], holder), events[i], holder).1
  {
    assert events[..i + 1][..i] == events[..i];
  }

  lemma ClearAllStep(rc: RefCounts, events: seq<EventId>, i: nat)
    requires i < |events|
    ensures ClearAll(rc, events[..i + 1]) == Clear(ClearAll(rc, events[..i]), events[i])
  {
    assert events[..i + 1][..i] == events[..i];
  }

  ghost predicate Distinct(s: seq<EventId>)
  {
    forall i, j | 0 <= i < j < |s| :: s[i] != s[j]
  }

  /**
   * Releasing distinct events that `holder` holds takes exactly one reference
   * from each of them and touches no other event.
   */
  lemma {:induction false} DecreaseAllOnce(rc: RefCounts, events: seq<EventId>, holder: string)
    requires Distinct(events)
    requires forall i | 0 <= i < |events| :: holder in Held(rc, events[i])
    ensures forall i | 0 <= i < |events| ::
      Count(DecreaseAll(rc, events, holder), events[i]) == Count(rc, events[i]) - 1
    ensures forall x | x !in events :: Held(DecreaseAll(rc, events, holder), x) == Held(rc, x)
    ensures Sound(rc) ==> Sound(DecreaseAll(rc, events, holder))
  {
    if events != [] {
      var init, last := events[..|events| - 1], events[|events| - 1];
      DecreaseAllOnce(rc, init, holder);
      assert last !in init by {
        forall i | 0 <= i < |init| ensures init[i] != last {
          assert events[i] == init[i];
        }
      }
      var mid := DecreaseAll(rc, init, holder);
      assert Held(mid, last) == Held(rc, last);
      forall i | 0 <= i < |events| - 1
        ensures Count(DecreaseAll(rc, events, holder), events[i]) == Count(rc, events[i]) - 1
      {
        assert events[i] == init[i] && events[i] != last;
      }
      forall x | x !in events ensures Held(DecreaseAll(rc, events, holder), x) == Held(rc, x) {
        assert x != last;
        assert x !in init;
      }
    }
  }

  /** Clearing releases every listed event, leaves it unheld, and touches no other event. */
  lemma {:induction false} ClearAllReleases(rc: RefCounts, events: seq<EventId>)
    ensures forall i | 0 <= i < |events| ::
      Count(ClearAll(rc, events), events[i]) == 0 && events[i] in ClearAll(rc, events).released
    ensures forall x | x !in events :: Held(ClearAll(rc, events), x) == Held(rc, x)
    ensures forall x | x in ClearAll(rc, events).released :: x in rc.released || x in events
    ensures Sound(rc) ==> Sound(ClearAll(rc, events))
  {
    if events != [] {
      var init, last := events[..|events| - 1], events[|events| - 1];
      ClearAllReleases(rc, init);
      var mid := ClearAll(rc, init);
      forall i | 0 <= i < |events| - 1
        ensures Count(ClearAll(rc, events), events[i]) == 0 && events[i] in ClearAll(rc, events).released
      {
        assert events[i] == init[i];
      }
      forall x | x !in events ensures Held(ClearAll(rc, events), x) == Held(rc, x) {
        assert x != last;
        assert x !in init;
      }
    }
  }

  /** The shared reference state, updated in place by everyone that holds an event. */
  class ReferenceTracker {
    var counts: RefCounts
    /** Whether the payload resources of an event can be pinned (decided outside this model). */
    const pinnable: EventId -> bool

    constructor (pinnable: EventId -> bool)
      ensures counts == Initial() && this.pinnable == pinnable
    {
      counts := Initial();
      this.pinnable := pinnable;
    }

    method IncreaseReferenceCount(e: EventId, holder: string) returns (ok: bool)
      modifies this
      ensures (ok, counts) == Increase(old(counts), e, holder, pinnable(e))
    {
      var r := Increase(counts, e, holder, pinnable(e));
      ok, counts := r.0, r.1;
    }

    method DecreaseReferenceCount(e: EventId, holder: string) returns (ok: bool)
      modifies this
      ensures (ok, counts) == Decrease(old(counts), e, holder)
    {
      var r := Decrease(counts, e, holder);
      ok, counts := r.0, r.1;
    }

    method ClearReferenceCount(e: EventId)
      modifies this
      ensures counts == Clear(old(counts), e)
    {
      counts := Clear(counts, e);
    }
  }
}

/**
 The start-rate reservation of `_wait_for_source_turn` (backend/app/detail_workers.py).
 A worker reads the clock and reserves a slot while it holds the lock, so reservations
 happen one after another. Times are clock ticks.
 */
module StartSlots {
  import opened Wrappers

  /** The slots given to requests made at these times, in the order they take the lock. */
  function Slots(requests: seq<int>, interval: nat): (slots: seq<int>)
    ensures |slots| == |requests|
  {
    if requests == [] then []
    else
      var rest := Slots(requests[..|requests| - 1], interval);
      rest + [Max(requests[|requests| - 1], NextFree(rest, interval))]
  }

  /** `_next_start_at` after these slots were given. */
  function NextFree(slots: seq<int>, interval: nat): int {
    if slots == [] then 0 else slots[|slots| - 1] + interval
  }

  /** The pool's reservation state. */
  class StartClock {
    const interval: nat
    var nextStartAt: int
    ghost var requests: seq<int>

    ghost predicate Valid()
      reads this
    {
      nextStartAt == NextFree(Slots(requests, interval), interval)
    }

    constructor (minInterval: int)
      ensures Valid() && requests == [] && interval == Max(0, minInterval)
    {
      interval := Max(0, minInterval);
      nextStartAt, requests := 0, [];
    }

    /** Returns how long the worker waits; its read starts at `now + delay`. */
    method Reserve(now: int) returns (delay: nat)
      requires Valid()
      modifies this
      ensures Valid() && requests == old(requests) + [now]
      ensures now + delay == Slots(requests, interval)[|old(requests)|]
    {
      delay := Max(0, nextStartAt - now);
      nextStartAt := Max(now, nextStartAt) + interval;
      requests := requests + [now];
      assert requests[..|requests| - 1] == old(requests);
    }
  }

  /** Slots already given do not move when more are reserved. */
  lemma {:induction false} SlotsStay(requests: seq<int>, interval: nat, n: nat)
    requires n <= |requests|
    ensures Slots(requests[..n], interval) == Slots(requests, interval)[..n]
  {
    if n < |requests| {
      var shorter := requests[..|requests| - 1];
      SlotsStay(shorter, interval, n);
      assert shorter[..n] == requests[..n];
    } else {
      assert requests[..n] == requests;
    }
  }

  lemma SlotAt(requests: seq<int>, interval: nat, k: nat)
    requires k < |requests|
    ensures var slots := Slots(requests, interval);
            slots[k] == Max(requests[k], if k == 0 then 0 else slots[k - 1] + interval)
  {
    SlotsStay(requests, interval, k + 1);
    SlotsStay(requests, interval, k);
    assert requests[..k + 1][..k] == requests[..k];
  }

  /** No slot comes before its request, and slot `j` is at least `j - i` intervals after slot `i`. */
  lemma {:induction false} SlotsAreApart(requests: seq<int>, interval: nat, i: nat, j: nat)
    requires i <= j < |requests|
    ensures var slots := Slots(requests, interval);
            slots[j] >= requests[j] && slots[j] >= slots[i] + (j - i) * interval
    decreases j
  {
    SlotAt(requests, interval, j);
    if i < j {
      SlotsAreApart(requests, interval, i, j - 1);
      assert (j - i) * interval == (j - 1 - i) * interval + interval;
    }
  }

  /** The time at which request `i` alone would let slot `k` start. */
  function Bound(requests: seq<int>, interval: nat, i: nat, k: nat): int
    requires i < |requests|
  {
    requests[i] + (k - i) * interval
  }

  /**
   Slot `k` is the maximum of the bounds of the requests up to `k`: it is at least each
   of them and equal to one. So no read waits longer than the rate requires.
   */
  lemma {:induction false} SlotIsTheLatestBound(requests: seq<int>, interval: nat, k: nat)
    requires k < |requests| && requests[0] >= 0
    ensures var slot := Slots(requests, interval)[k];
            && (forall i: nat | i <= k :: slot >= Bound(requests, interval, i, k))
            && exists i: nat | i <= k :: slot == Bound(requests, interval, i, k)
  {
    var slots := Slots(requests, interval);
    forall i: nat | i <= k ensures slots[k] >= Bound(requests, interval, i, k) {
      SlotsAreApart(requests, interval, i, k);
      SlotsAreApart(requests, interval, i, i);
    }
    SlotAt(requests, interval, k);
    if slots[k] == requests[k] {
      assert slots[k] == Bound(requests, interval, k, k);
    } else {
      SlotIsTheLatestBound(requests, interval, k - 1);
      var i: nat :| i <= k - 1 && slots[k - 1] == Bound(requests, interval, i, k - 1);
      assert (k - i) * interval == (k - 1 - i) * interval + interval;
      assert slots[k] == Bound(requests, interval, i, k);
    }
  }

  /** Any window of a given length holds at most `length / interval + 1` starts. */
  lemma WindowHoldsFew(requests: seq<int>, interval: nat, i: nat, j: nat, length: nat)
    requires i <= j < |requests| && interval > 0
    requires Slots(requests, interval)[j] - Slots(requests, interval)[i] <= length
    ensures j - i + 1 <= length / interval + 1
  {
    SlotsAreApart(requests, interval, i, j);
    Quotient(length, interval, j - i);
  }

  lemma Quotient(length: nat, interval: nat, n: nat)
    requires interval > 0 && n * interval <= length
    ensures n <= length / interval
  {
    var q := length / interval;
    assert length < q * interval + interval;
    assert (q + 1) * interval == q * interval + interval;
    if n > q {
      Monotone(q + 1, n, interval);
      assert false;
    }
  }
}

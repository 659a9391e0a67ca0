/** The cyclic trace of delivery opportunities: `next_delivery_`, `base_timestamp_`, `finished_`. */
module Schedules {
  import opened Packets

  /** What `next_delivery_time` returns once a one-shot trace has run out. */
  const NEVER: nat := U64 - 1

  /** The trace files the constructor accepts. */
  ghost predicate ValidSchedule(s: seq<nat>) {
    s != [] && s[|s| - 1] > 0 && forall i, j :: 0 <= i <= j < |s| ==> s[i] <= s[j]
  }

  datatype Cursor = Cursor(next: nat, base: nat, finished: bool)

  predicate InRange(s: seq<nat>, c: Cursor) {
    c.next < |s|
  }

  /** `next_delivery_time` */
  function TimeOf(s: seq<nat>, c: Cursor): nat
    requires InRange(s, c)
  {
    if c.finished then NEVER else s[c.next] + c.base
  }

  /** `use_a_delivery_opportunity` */
  function Advance(s: seq<nat>, repeat: bool, c: Cursor): Cursor
    requires InRange(s, c)
  {
    var next := (c.next + 1) % |s|;
    if next != 0 then c.(next := next)
    else if repeat then c.(next := 0, base := c.base + s[|s| - 1])
    else c.(next := 0, finished := true)
  }

  /** Where the cursor stands after k opportunities, without replaying them. */
  ghost function CursorAt(s: seq<nat>, repeat: bool, k: nat): (c: Cursor)
    requires s != []
  {
    if repeat then Cursor(k % |s|, k / |s| * s[|s| - 1], false)
    else if k < |s| then Cursor(k, 0, false)
    else Cursor(0, 0, true)
  }

  /** The time of opportunity k; it never comes when the trace is not repeated and k is past its end. */
  ghost function DeliveryTime(s: seq<nat>, repeat: bool, k: nat): nat
    requires s != []
  {
    if repeat then s[k % |s|] + k / |s| * s[|s| - 1]
    else if k < |s| then s[k] else NEVER
  }

  lemma MulBounds(n: nat, d: int)
    ensures d >= 1 ==> n * d >= n
    ensures d <= -1 ==> n * d <= -1 * n
  {
  }

  lemma DivModUnique(k: nat, n: nat, q: nat, r: nat)
    requires r < n && k == n * q + r
    ensures k / n == q && k % n == r
  {
    var d := k / n - q;
    assert n * d == r - k % n by {
      assert k == n * (k / n) + k % n;
      assert n * d == n * (k / n) - n * q;
    }
    MulBounds(n, d);
  }

  lemma DivModStep(k: nat, n: nat)
    requires n > 0
    ensures k % n + 1 < n ==> (k + 1) % n == k % n + 1 && (k + 1) / n == k / n
    ensures k % n + 1 == n ==> (k + 1) % n == 0 && (k + 1) / n == k / n + 1
  {
    var q, r := k / n, k % n;
    assert k == n * q + r;
    if r + 1 == n {
      assert n * (q + 1) == n * q + n;
      DivModUnique(k + 1, n, q + 1, 0);
    } else {
      DivModUnique(k + 1, n, q, r + 1);
    }
  }

  lemma NextIndex(i: nat, n: nat)
    requires i < n
    ensures (i + 1) % n == if i + 1 < n then i + 1 else 0
  {
  }

  /** Replaying one more opportunity moves the closed form by one. */
  lemma AdvanceFollowsClosedForm(s: seq<nat>, repeat: bool, k: nat)
    requires ValidSchedule(s) && (repeat || k < |s|)
    ensures Advance(s, repeat, CursorAt(s, repeat, k)) == CursorAt(s, repeat, k + 1)
    ensures TimeOf(s, CursorAt(s, repeat, k)) == DeliveryTime(s, repeat, k)
  {
    var n, last := |s|, s[|s| - 1];
    if repeat {
      DivModStep(k, n);
      NextIndex(k % n, n);
      assert (k / n + 1) * last == k / n * last + last;
    } else {
      NextIndex(k, n);
    }
  }

  /** Delivery times never decrease, also across a wraparound. */
  lemma DeliveryTimeStep(s: seq<nat>, repeat: bool, k: nat)
    requires ValidSchedule(s)
    requires forall i :: 0 <= i < |s| ==> s[i] < NEVER
    ensures DeliveryTime(s, repeat, k) <= DeliveryTime(s, repeat, k + 1)
  {
    if repeat {
      var n, last := |s|, s[|s| - 1];
      DivModStep(k, n);
      assert (k / n + 1) * last == k / n * last + last;
    }
  }

  lemma {:induction false} DeliveryTimesNondecreasing(s: seq<nat>, repeat: bool, j: nat, k: nat)
    requires ValidSchedule(s) && j <= k
    requires forall i :: 0 <= i < |s| ==> s[i] < NEVER
    ensures DeliveryTime(s, repeat, j) <= DeliveryTime(s, repeat, k)
    decreases k - j
  {
    if j < k {
      DeliveryTimeStep(s, repeat, j);
      DeliveryTimesNondecreasing(s, repeat, j + 1, k);
    }
  }
}

/** The table of link rates the constructor derives from the trace, in unsigned arithmetic. */
module BitrateScan {
  import opened Packets
  import opened Schedules

  const LONG_TRACE: nat := 100
  const HALF_INTERVAL: nat := 50

  /** A sum or difference as a `uint64_t`. */
  function Wrap(x: int): int {
    x % U64
  }

  /** A time cast to `int`. */
  function AsInt(x: nat): int {
    if x % U32 < 0x8000_0000 then x % U32 else x % U32 - U32
  }

  lemma AsIntIsShort(x: nat)
    ensures -0x8000_0000 <= AsInt(x) < 0x8000_0000
  {
  }

  lemma WrapIsModular(x: int)
    requires 0 - U64 <= x < U64
    ensures Wrap(x) == if x < 0 then x + U64 else x
  {
  }

  /** A trace the constructor accepts. */
  ghost predicate Readable(s: seq<nat>) {
    ValidSchedule(s) && forall i :: 0 <= i < |s| ==> s[i] < U64
  }

  /** A trace with times that survive the cast to `int`. */
  ghost predicate Loadable(s: seq<nat>) {
    ValidSchedule(s) && forall i :: 0 <= i < |s| ==> s[i] < 0x8000_0000
  }

  /** No entry from `from` to i is 50 ms or more before entry i. */
  ghost predicate AllRecent(s: seq<nat>, from: int, i: nat)
    requires i < |s|
  {
    forall j :: 0 <= j && from <= j <= i ==> s[i] < s[j] + 50
  }

  // ----- the backward scan of one entry -----

  /** Where the scan stands, and whether it has gone round to the end of the trace. */
  datatype Scan = Scan(at: int, round: bool)

  function Offset(s: seq<nat>, round: bool): int
    requires s != []
  {
    if round then 0 - AsInt(s[|s| - 1]) else 0
  }

  /** The loop condition. */
  predicate GoesOn(s: seq<nat>, i: nat, x: Scan)
    requires i < |s| && 0 <= x.at < |s|
  {
    Wrap(s[x.at] + Offset(s, x.round)) > Wrap(s[i] - HALF_INTERVAL)
  }

  /** The scan after n rounds of the loop, were it to go on that long. */
  function ScanAt(s: seq<nat>, i: nat, n: nat): (x: Scan)
    requires i < |s|
    ensures 0 <= x.at < |s| && (!x.round ==> x.at <= i)
  {
    if n == 0 then Scan(i, false)
    else
      var x := ScanAt(s, i, n - 1);
      if x.at > 0 then x.(at := x.at - 1) else Scan(|s| - 1, true)
  }

  lemma {:induction false} ScanClosedForm(s: seq<nat>, i: nat, n: nat)
    requires i < |s| && n <= i + |s|
    ensures ScanAt(s, i, n) == if n <= i then Scan(i - n, false) else Scan(|s| + i - n, true)
  {
    if n > 0 { ScanClosedForm(s, i, n - 1); }
  }

  /** An entry at which the scan can stop once it has gone round. */
  predicate StopsRound(s: seq<nat>, i: nat, j: nat)
    requires i < |s|
  {
    j < |s| && Wrap(s[j] - AsInt(s[|s| - 1])) + 50 <= s[i]
  }

  /** The latest such entry. */
  ghost predicate LatestRound(s: seq<nat>, i: nat, left: nat)
    requires i < |s|
  {
    StopsRound(s, i, left) && forall j :: left < j < |s| ==> !StopsRound(s, i, j)
  }

  /** The scan has somewhere to stop: at once, in this cycle, or after going round. */
  ghost predicate Stops(s: seq<nat>, i: nat)
    requires i < |s|
  {
    s[i] < 50 || !AllRecent(s, 0, i) || exists j: nat :: StopsRound(s, i, j)
  }

  lemma GoesOnIff(s: seq<nat>, i: nat, x: Scan)
    requires Readable(s) && i < |s| && 0 <= x.at < |s| && (!x.round ==> x.at <= i)
    ensures s[i] < 50 && x == Scan(i, false) ==> !GoesOn(s, i, x)
    ensures s[i] >= 50 && !x.round ==> (GoesOn(s, i, x) <==> s[i] - s[x.at] < 50)
    ensures s[i] >= 50 && x.round ==> (GoesOn(s, i, x) <==> !StopsRound(s, i, x.at))
  {
    hide Wrap, AsInt;
    var time: int := s[i];
    WrapIsModular(time - HALF_INTERVAL);
    WrapIsModular(s[x.at]);
  }

  /** The scan of an entry ends exactly when it has somewhere to stop. */
  lemma ScanEndsIff(s: seq<nat>, i: nat)
    requires Readable(s) && i < |s|
    ensures (exists n: nat :: !GoesOn(s, i, ScanAt(s, i, n))) <==> Stops(s, i)
  {
    hide GoesOn, ScanAt, StopsRound;
    if Stops(s, i) {
      var n: nat;
      if s[i] < 50 {
        n := 0;
      } else if !AllRecent(s, 0, i) {
        var j :| 0 <= j <= i && s[i] - s[j] >= 50;
        n := i - j;
      } else {
        var j: nat :| StopsRound(s, i, j);
        assert j < |s| by { StopIsEntry(s, i, j); }
        n := |s| + i - j;
      }
      ScanClosedForm(s, i, n);
      GoesOnIff(s, i, ScanAt(s, i, n));
    } else {
      forall n: nat ensures GoesOn(s, i, ScanAt(s, i, n)) {
        GoesOnIff(s, i, ScanAt(s, i, n));
      }
    }
  }

  lemma StopIsEntry(s: seq<nat>, i: nat, j: nat)
    requires i < |s| && StopsRound(s, i, j)
    ensures j < |s|
  {
  }

  /** Every scan of a trace with times that survive the cast ends. */
  lemma LoadableStops(s: seq<nat>, i: nat)
    requires Loadable(s) && i < |s|
    ensures Readable(s) && Stops(s, i)
    ensures s[i] >= 50 ==> StopsRound(s, i, |s| - 1)
  {
    WrapIsModular(0);
    assert s[i] >= 50 ==> StopsRound(s, i, |s| - 1);
  }

  /** A scan that never ends: the cycle of 2^32 + 100 ms is cast to 100, and no entry is at most
      10 ms after that. */
  lemma ScanMayHang(n: nat)
    ensures var s := [60, U32 + 100];
      Readable(s) && AsInt(s[1]) == 100 && GoesOn(s, 0, ScanAt(s, 0, n))
  {
    var s := [60, U32 + 100];
    assert !StopsRound(s, 0, 0) && !StopsRound(s, 0, 1);
    ScanEndsIff(s, 0);
  }

  /** The scan stops at the latest entry at least 50 ms older; at once when entry i itself is
      younger than 50 ms, because then the difference has wrapped; and when this cycle has no older
      entry, at the latest one at which it can stop after going round. */
  method ScanBack(s: seq<nat>, i: nat) returns (left: nat)
    requires Readable(s) && i < |s| && Stops(s, i)
    ensures left < |s|
    ensures s[i] < 50 ==> left == i
    ensures s[i] >= 50 && !AllRecent(s, 0, i) ==>
      left < i && s[i] - s[left] >= 50 && AllRecent(s, left + 1, i)
    ensures s[i] >= 50 && AllRecent(s, 0, i) ==> LatestRound(s, i, left)
  {
    hide Wrap, AsInt, StopsRound;
    ghost var stop: nat := if exists j: nat :: StopsRound(s, i, j) then var j: nat :| StopsRound(s, i, j); j else 0;
    if StopsRound(s, i, stop) { StopIsEntry(s, i, stop); }
    var n: int, cycle: int := |s|, AsInt(s[|s| - 1]);
    var at: int, offset: int := i, 0;
    ghost var round := false;
    GoesOnIff(s, i, Scan(at, round));
    while Wrap(s[at] + offset) > Wrap(s[i] - HALF_INTERVAL)
      invariant 0 <= at < n && offset == Offset(s, round)
      invariant !round ==> at <= i && AllRecent(s, at + 1, i)
      invariant s[i] < 50 ==> !round && at == i
      invariant round ==> AllRecent(s, 0, i) && stop <= at && forall j :: at < j < n ==> !StopsRound(s, i, j)
      decreases if round then 0 else 1, at
    {
      GoesOnIff(s, i, Scan(at, round));
      at := at - 1;
      if at < 0 {
        offset := 0 - cycle;
        at := at + n;
        round := true;
      }
    }
    GoesOnIff(s, i, Scan(at, round));
    left := at;
  }

  // ----- the window of an entry and its rate -----

  /** Packets and milliseconds of the window that gives entry i its rate: the shortest one of at
      least 50 ms in this cycle, else one that goes round, else, for an entry younger than 50 ms,
      the whole cycle. */
  ghost predicate IsWindow(s: seq<nat>, i: nat, packets: int, span: int)
    requires i < |s|
  {
    var cycle := AsInt(s[|s| - 1]);
    if s[i] < 50 then packets == |s| && span == cycle
    else if AllRecent(s, 0, i) then
      && i < packets <= |s| && LatestRound(s, i, i + |s| - packets)
      && span + Wrap(s[i + |s| - packets] - cycle) == s[i]
    else 0 < packets <= i && span + s[i - packets] == s[i] && span >= 50 && AllRecent(s, i - packets + 1, i)
  }

  /** A scan that goes round does not come back to entries before i. */
  lemma RoundStopsAhead(s: seq<nat>, i: nat, left: nat)
    requires Readable(s) && i < |s| && s[i] >= 50 && AsInt(s[|s| - 1]) >= 100
    requires LatestRound(s, i, left)
    ensures i <= left < |s|
  {
    hide Wrap, AsInt;
    var cycle := AsInt(s[|s| - 1]);
    AsIntIsShort(s[|s| - 1]);
    WrapIsModular(s[i] - cycle);
    WrapIsModular(s[left] - cycle);
    assert s[i] >= cycle ==> StopsRound(s, i, i);
  }

  /** Every window is at least 50 ms long. */
  lemma WindowIsLong(s: seq<nat>, i: nat, packets: int, span: int)
    requires Readable(s) && i < |s| && AsInt(s[|s| - 1]) >= 100 && IsWindow(s, i, packets, span)
    ensures span >= 50 && 0 < packets <= |s|
  {
    hide Wrap, AsInt;
  }

  /** The window is unique, so the rate of an entry is determined. */
  lemma WindowUnique(s: seq<nat>, i: nat, p1: int, w1: int, p2: int, w2: int)
    requires ValidSchedule(s) && i < |s| && IsWindow(s, i, p1, w1) && IsWindow(s, i, p2, w2)
    ensures p1 == p2 && w1 == w2
  {
    hide Wrap, AsInt, StopsRound;
  }

  /** Below 2^31 ms a window that goes round goes to the last entry, so it begins with the cycle. */
  lemma LoadableWindow(s: seq<nat>, i: nat, packets: int, span: int)
    requires Loadable(s) && i < |s| && s[|s| - 1] >= 100 && IsWindow(s, i, packets, span)
    ensures 50 <= span < 0x8000_0000
    ensures s[i] < 50 ==> span == s[|s| - 1]
    ensures s[i] >= 50 && AllRecent(s, 0, i) ==> packets == i + 1 && span == s[i]
  {
    hide Wrap, StopsRound;
    LoadableStops(s, i);
    WindowIsLong(s, i, packets, span);
    WrapIsModular(0);
    if s[i] >= 50 && AllRecent(s, 0, i) { assert !(i + |s| - packets < |s| - 1); }
  }

  /** An integer division in C. */
  datatype Quotient = DividedByZero | Quotient(value: nat)

  /** Bits per millisecond: product and divisor are cut down to 32 bits. */
  function Throughput(packets: int, span: int): Quotient
    requires packets >= 0
  {
    if span % U32 == 0 then DividedByZero else Quotient(PACKET_SIZE * packets * 8 % U32 / (span % U32))
  }

  /** The rate is the floor of the bits of the packets, 1504 bytes each and cut down to 32 bits, over
      the milliseconds of the span, cut down likewise. */
  lemma ThroughputIs(packets: nat, span: int)
    ensures span % 0x1_0000_0000 == 0 <==> Throughput(packets, span) == DividedByZero
    ensures span % 0x1_0000_0000 != 0 ==>
      var v, d := Throughput(packets, span).value, span % 0x1_0000_0000;
      v * d <= 8 * 1504 * packets % 0x1_0000_0000 < (v + 1) * d
  {
    var d, bits := span % U32, PACKET_SIZE * packets * 8 % U32;
    if d != 0 { assert bits == d * (bits / d) + bits % d; }
  }

  ghost predicate RateOver(s: seq<nat>, i: nat, rate: Quotient, packets: int, span: int)
    requires i < |s|
  {
    IsWindow(s, i, packets, span) && packets >= 0 && span >= 50 && rate == Throughput(packets, span)
  }

  ghost predicate IsRate(s: seq<nat>, i: nat, rate: Quotient)
    requires i < |s|
  {
    exists packets, span :: RateOver(s, i, rate, packets, span)
  }

  /** The window of entry i is a multiple of 2^32 ms long. */
  ghost predicate WrapsToZero(s: seq<nat>, i: nat)
    requires i < |s|
  {
    exists packets, span :: IsWindow(s, i, packets, span) && span % U32 == 0
  }

  /** An entry divides by zero exactly when its window is a multiple of 2^32 ms long. */
  lemma DividesByZeroIff(s: seq<nat>, i: nat, rate: Quotient)
    requires ValidSchedule(s) && i < |s| && IsRate(s, i, rate)
    ensures rate == DividedByZero <==> WrapsToZero(s, i)
  {
    hide IsWindow;
    var p, w :| RateOver(s, i, rate, p, w);
    if WrapsToZero(s, i) {
      var p', w' :| IsWindow(s, i, p', w') && w' % U32 == 0;
      WindowUnique(s, i, p, w, p', w');
    }
  }

  lemma LoadableNeverWraps(s: seq<nat>, i: nat)
    requires Loadable(s) && i < |s| && s[|s| - 1] >= 100
    ensures !WrapsToZero(s, i)
  {
    hide IsWindow;
    forall p, w | IsWindow(s, i, p, w) ensures w % U32 != 0 {
      LoadableWindow(s, i, p, w);
    }
  }

  /** A trace for which the constructor divides by zero: the window of entry 1 is 2^32 ms long. */
  lemma MayDivideByZero()
    ensures var s := [0, U32, U32 + 100];
      && Readable(s) && AsInt(s[2]) == 100 && Stops(s, 1)
      && WrapsToZero(s, 1) && IsRate(s, 1, DividedByZero)
  {
    var s := [0, U32, U32 + 100];
    assert s[1] - s[0] >= 50;
    assert IsWindow(s, 1, 1, U32) && U32 % U32 == 0;
    assert RateOver(s, 1, DividedByZero, 1, U32);
  }

  /** The rate of one entry: the divisor stands for a span of at least 50 ms. */
  method RateAt(s: seq<nat>, i: nat) returns (rate: Quotient)
    requires Readable(s) && i < |s| && AsInt(s[|s| - 1]) >= 100 && Stops(s, i)
    ensures IsRate(s, i, rate)
    ensures rate == DividedByZero <==> WrapsToZero(s, i)
  {
    hide Throughput, Wrap, AsInt, StopsRound;
    var left := ScanBack(s, i);
    if s[i] >= 50 && AllRecent(s, 0, i) { RoundStopsAhead(s, i, left); }
    var cycle: int := AsInt(s[|s| - 1]);
    var d: int := i - left;
    var numPkts := if d > 0 then d else d + |s|;
    var interval := Wrap(if d > 0 then s[i] - s[left] else s[i] - s[left] + cycle);
    RoundSpan(s, i, left);
    rate := Throughput(numPkts, interval);
    WindowIsLong(s, i, numPkts, interval);
    assert RateOver(s, i, rate, numPkts, interval);
    DividesByZeroIff(s, i, rate);
  }

  /** The wrapped difference is the span of the window. */
  lemma RoundSpan(s: seq<nat>, i: nat, left: nat)
    requires Readable(s) && i < |s| && left < |s|
    requires AsInt(s[|s| - 1]) >= 100
    ensures left < i ==> Wrap(s[i] - s[left]) == s[i] - s[left]
    ensures left == i ==> Wrap(s[i] - s[left] + AsInt(s[|s| - 1])) == AsInt(s[|s| - 1])
    ensures s[i] >= 50 && StopsRound(s, i, left) ==>
      Wrap(s[i] - s[left] + AsInt(s[|s| - 1])) + Wrap(s[left] - AsInt(s[|s| - 1])) == s[i]
  {
    hide Wrap;
    var cycle := AsInt(s[|s| - 1]);
    assert s[left] < U64 && s[i] < U64 && 0 < cycle < U32;
    WrapIsModular(s[left] - cycle);
    if left < i { WrapIsModular(s[i] - s[left]); }
    WrapIsModular(cycle);
    if StopsRound(s, i, left) { WrapOfDifference(s[i], s[left] - cycle); }
  }

  lemma WrapOfDifference(a: int, b: int)
    requires 0 <= a < U64 && 0 - U64 < b < U64 && Wrap(b) <= a
    ensures Wrap(a - b) == a - Wrap(b)
  {
  }

  /** What the constructor comes to: the rate table, or the entry at which it divides by zero. */
  datatype Table = Table(rates: seq<nat>) | Crash(entry: nat)

  /** One rate per entry; the table of a trace with times below 2^31 ms is always complete. */
  method Rates(s: seq<nat>) returns (table: Table)
    requires Readable(s)
    requires AsInt(s[|s| - 1]) >= 100 ==> forall i :: 0 <= i < |s| ==> Stops(s, i)
    ensures table.Table? ==> |table.rates| == |s|
    ensures AsInt(s[|s| - 1]) < 100 ==> table.Table?
    ensures AsInt(s[|s| - 1]) < 100 ==>
      forall i :: 0 <= i < |s| ==> table.rates[i] == PACKET_SIZE * |s| * 8 / s[|s| - 1] % U32
    ensures AsInt(s[|s| - 1]) >= 100 && table.Table? ==>
      forall i :: 0 <= i < |s| ==> IsRate(s, i, Quotient(table.rates[i]))
    ensures AsInt(s[|s| - 1]) >= 100 ==>
      (table.Crash? <==> exists i :: 0 <= i < |s| && WrapsToZero(s, i))
    ensures Loadable(s) ==> table.Table?
  {
    hide IsRate, WrapsToZero, AsInt, Stops;
    var rates: seq<nat> := [];
    for i := 0 to |s|
      invariant |rates| == i
      invariant AsInt(s[|s| - 1]) < 100 ==>
        forall j :: 0 <= j < i ==> rates[j] == PACKET_SIZE * |s| * 8 / s[|s| - 1] % U32
      invariant AsInt(s[|s| - 1]) >= 100 ==>
        forall j :: 0 <= j < i ==> IsRate(s, j, Quotient(rates[j])) && !WrapsToZero(s, j)
    {
      if AsInt(s[|s| - 1]) < LONG_TRACE {
        rates := rates + [PACKET_SIZE * |s| * 8 / s[|s| - 1] % U32];
      } else {
        var rate := RateAt(s, i);
        if rate == DividedByZero {
          LoadableIsSafe(s, i);
          return Crash(i);
        }
        rates := rates + [rate.value];
      }
    }
    table := Table(rates);
  }

  lemma LoadableIsSafe(s: seq<nat>, i: nat)
    requires i < |s| && AsInt(s[|s| - 1]) >= 100 && WrapsToZero(s, i)
    ensures !Loadable(s)
  {
    hide WrapsToZero;
    if Loadable(s) { LoadableNeverWraps(s, i); }
  }
}

/** The sliding window over departures from which the link estimates its own rate. */
module RateWindow {
  import opened Packets

  datatype Departure = Departure(time: nat, size: nat)

  const INTERVAL: nat := 50
  const MIN_SAMPLE: nat := 5
  const UNKNOWN_RATE: nat := U32 - 1

  /** Pops the front while it is older than `limit` and at least MIN_SAMPLE entries are left. */
  function Trim(w: seq<Departure>, limit: int): seq<Departure> {
    if |w| >= MIN_SAMPLE && w[0].time < limit then Trim(w[1..], limit) else w
  }

  /** The limit as the program computes it: an unsigned subtraction, which wraps before 50 ms. */
  function WrappedLimit(t: nat): (limit: nat)
    ensures t < U64 ==> limit == (t - 50) % U64
  {
    if t >= INTERVAL then t - INTERVAL else U64 + t - INTERVAL
  }

  function Record(w: seq<Departure>, t: nat, size: nat): seq<Departure> {
    Trim(w + [Departure(t, size)], WrappedLimit(t))
  }

  function Total(w: seq<Departure>): nat {
    if w == [] then 0 else w[0].size + Total(w[1..])
  }

  /** `dequeue_rate_` in bits per ms when `size` bytes leave at time t. */
  function Rate(w: seq<Departure>, t: nat, size: nat): int {
    if |w| >= MIN_SAMPLE - 1 && t != w[0].time
    then (Total(w) - w[0].size + size) * 8 / (t - w[0].time)
    else UNKNOWN_RATE
  }

  /** The incrementally kept window after all departures of a busy period. */
  ghost function Window(busy: seq<Departure>): seq<Departure> {
    if busy == [] then []
    else
      var e := busy[|busy| - 1];
      Record(Window(busy[..|busy| - 1]), e.time, e.size)
  }

  /** The rate measured at the last departure of a busy period. */
  ghost function LastRate(busy: seq<Departure>): int {
    if busy == [] then UNKNOWN_RATE
    else
      var e := busy[|busy| - 1];
      Rate(Window(busy[..|busy| - 1]), e.time, e.size)
  }

  /** A rate is unknown when nothing has left, when fewer than four departures are in the window
      before the last one, or when the window has no length; otherwise it is the floor of eight
      times the bytes that left after the front of the window, over the time since then. */
  ghost predicate RateMeans(busy: seq<Departure>, rate: int) {
    if busy == [] then rate == 0xffff_ffff
    else
      var e, w := busy[|busy| - 1], Window(busy[..|busy| - 1]);
      if |w| < 4 || e.time == w[0].time then rate == 0xffff_ffff
      else
        var dt := e.time - w[0].time;
        rate * dt <= 8 * Total(w[1..] + [e]) < (rate + 1) * dt
  }

  lemma LastRateMeans(busy: seq<Departure>)
    requires InOrder(busy)
    ensures RateMeans(busy, LastRate(busy))
  {
    hide Rate, Window, Total;
    if busy != [] {
      var n := |busy| - 1;
      var e, w := busy[n], Window(busy[..n]);
      WindowIsPast(busy);
      UnknownRate(w, e.time, e.size);
      if |w| >= 4 && e.time != w[0].time { RateIsBytesOverTime(w, e.time, e.size); }
    }
  }

  lemma UnknownRate(w: seq<Departure>, t: nat, size: nat)
    ensures |w| < 4 || t == w[0].time ==> Rate(w, t, size) == 0xffff_ffff
  {
  }

  /** The window before the last departure begins no later than it. */
  lemma WindowIsPast(busy: seq<Departure>)
    requires busy != [] && InOrder(busy)
    ensures var n := |busy| - 1;
      var w := Window(busy[..n]);
      w != [] ==> w[0].time <= busy[n].time
  {
    hide Window;
    var n := |busy| - 1;
    var past := busy[..n];
    assert forall i :: 0 <= i < n ==> past[i] == busy[i];
    if past != [] { WindowKeepsFour(past); } else { NoWindow(); }
  }

  lemma NoWindow()
    ensures Window([]) == []
  {
  }

  ghost predicate InOrder(w: seq<Departure>) {
    forall i, j :: 0 <= i <= j < |w| ==> w[i].time <= w[j].time
  }

  /** How many of the first n departures left before 50 ms; the wrapped limit cannot keep them. */
  ghost function Early(busy: seq<Departure>, n: nat): nat
    requires n <= |busy|
  {
    if n == 0 then 0 else if busy[n - 1].time < 50 then n else Early(busy, n - 1)
  }

  /** Where trimming the entries k .. n - 1 stops. */
  ghost function Cut(busy: seq<Departure>, n: nat, k: nat, limit: int): nat
    requires k <= n <= |busy|
    decreases n - k
  {
    if n - k >= MIN_SAMPLE && busy[k].time < limit then Cut(busy, n, k + 1, limit) else k
  }

  /** The first entry still in the window after n departures. */
  ghost function WindowStart(busy: seq<Departure>, n: nat): (k: nat)
    requires n <= |busy|
    ensures k <= n
  {
    if n == 0 then 0
    else
      CutStops(busy, n, WindowStart(busy, n - 1), WrappedLimit(busy[n - 1].time));
      Cut(busy, n, WindowStart(busy, n - 1), WrappedLimit(busy[n - 1].time))
  }

  /** Trimming from k stops at j. */
  ghost predicate StopsAt(busy: seq<Departure>, n: nat, k: nat, limit: int, j: nat)
    requires n <= |busy|
  {
    && k <= j <= Max(k, n - 4)
    && (j == k || busy[j - 1].time < limit)
    && (j >= n - 4 || busy[j].time >= limit)
  }

  ghost predicate EarlyAt(busy: seq<Departure>, n: nat, e: nat)
    requires n <= |busy|
  {
    e <= n && (e == 0 || busy[e - 1].time < INTERVAL) && (e == n || busy[e].time >= INTERVAL)
  }

  lemma {:induction false} CutStops(busy: seq<Departure>, n: nat, k: nat, limit: int)
    requires k <= n <= |busy|
    ensures StopsAt(busy, n, k, limit, Cut(busy, n, k, limit))
    decreases n - k
  {
    if n - k >= MIN_SAMPLE && busy[k].time < limit { CutStops(busy, n, k + 1, limit); }
  }

  lemma {:induction false} EarlyIsPrefix(busy: seq<Departure>, n: nat)
    requires InOrder(busy) && n <= |busy|
    ensures EarlyAt(busy, n, Early(busy, n))
  {
    if n > 0 && busy[n - 1].time >= INTERVAL { EarlyIsPrefix(busy, n - 1); }
  }

  /** One departure more: trimming on from k0 stops where the closed form says. */
  lemma CutStep(busy: seq<Departure>, n: nat, c0: nat, e0: nat, c: nat, e: nat, k: nat)
    requires InOrder(busy) && 1 < n <= |busy|
    requires StopsAt(busy, n - 1, 0, busy[n - 2].time - INTERVAL, c0) && EarlyAt(busy, n - 1, e0)
    requires StopsAt(busy, n, 0, busy[n - 1].time - INTERVAL, c) && EarlyAt(busy, n, e)
    requires StopsAt(busy, n, Max(c0, e0 - 4), WrappedLimit(busy[n - 1].time), k)
    ensures k == Max(c, e - 4)
  {
  }

  /** The start in closed form: where trimming all departures at once stops, but past every
      early departure except the last four. */
  lemma {:induction false} StartClosedForm(busy: seq<Departure>, n: nat, e: nat, c: nat)
    requires InOrder(busy) && 0 < n <= |busy| && EarlyAt(busy, n, e)
    requires StopsAt(busy, n, 0, busy[n - 1].time - INTERVAL, c)
    ensures WindowStart(busy, n) == Max(c, e - 4)
  {
    if n > 1 {
      var limit := busy[n - 2].time - INTERVAL;
      CutStops(busy, n - 1, 0, limit);
      StartStep(busy, n, e, c, Cut(busy, n - 1, 0, limit));
    }
  }

  lemma {:induction false} StartStep(busy: seq<Departure>, n: nat, e: nat, c: nat, c0: nat)
    requires InOrder(busy) && 1 < n <= |busy| && EarlyAt(busy, n, e)
    requires StopsAt(busy, n, 0, busy[n - 1].time - INTERVAL, c)
    requires StopsAt(busy, n - 1, 0, busy[n - 2].time - INTERVAL, c0)
    ensures WindowStart(busy, n) == Max(c, e - 4)
  {
    var e0 := Min(e, n - 1);
    StartClosedForm(busy, n - 1, e0, c0);
    CutStops(busy, n, WindowStart(busy, n - 1), WrappedLimit(busy[n - 1].time));
    CutStep(busy, n, c0, e0, c, e, WindowStart(busy, n));
  }

  lemma {:induction false} TrimIsCut(busy: seq<Departure>, n: nat, k: nat, limit: int)
    requires k <= n <= |busy|
    ensures var j := Cut(busy, n, k, limit); k <= j <= n && Trim(busy[k..n], limit) == busy[j..n]
    decreases n - k
  {
    if n - k >= MIN_SAMPLE && busy[k].time < limit {
      assert busy[k..n][1..] == busy[k + 1..n];
      TrimIsCut(busy, n, k + 1, limit);
    }
  }

  lemma {:induction false} WindowFromStart(busy: seq<Departure>, n: nat)
    requires n <= |busy|
    ensures Window(busy[..n]) == busy[WindowStart(busy, n)..n]
  {
    if n > 0 {
      var k, d := WindowStart(busy, n - 1), busy[n - 1];
      WindowFromStart(busy, n - 1);
      assert busy[..n][..n - 1] == busy[..n - 1];
      assert busy[k..n - 1] + [d] == busy[k..n];
      TrimIsCut(busy, n, k, WrappedLimit(d.time));
    }
  }

  lemma SuffixesEqualIff<T>(s: seq<T>, i: nat, j: nat)
    requires i <= |s| && j <= |s|
    ensures s[i..] == s[j..] <==> i == j
  {
  }

  /** The window equals trimming the whole busy period from scratch exactly when no early
      departure had to be kept that the wrapped subtraction threw away. */
  lemma WindowExactIff(busy: seq<Departure>)
    requires busy != [] && InOrder(busy)
    ensures Early(busy, |busy|) <= |busy|
    ensures var n, e := |busy|, Early(busy, |busy|);
      Window(busy) == Trim(busy, busy[n - 1].time - 50)
      <==> e <= 4 || busy[e - 5].time < busy[n - 1].time - 50
  {
    var n := |busy|;
    var limit := busy[n - 1].time - INTERVAL;
    var c := Cut(busy, n, 0, limit);
    CutStops(busy, n, 0, limit);
    EarlyIsPrefix(busy, n);
    CutPasses(busy, limit, c, Early(busy, n));
    StartClosedForm(busy, n, Early(busy, n), c);
    WindowsAsSuffixes(busy, limit);
    SuffixesEqualIff(busy, WindowStart(busy, n), c);
  }

  lemma WindowsAsSuffixes(busy: seq<Departure>, limit: int)
    ensures WindowStart(busy, |busy|) <= |busy| && Cut(busy, |busy|, 0, limit) <= |busy|
    ensures Window(busy) == busy[WindowStart(busy, |busy|)..]
    ensures Trim(busy, limit) == busy[Cut(busy, |busy|, 0, limit)..]
  {
    var n := |busy|;
    assert busy == busy[..n] == busy[0..n];
    WindowFromStart(busy, n);
    TrimIsCut(busy, n, 0, limit);
  }

  lemma CutPasses(busy: seq<Departure>, limit: int, c: nat, e: nat)
    requires InOrder(busy) && StopsAt(busy, |busy|, 0, limit, c) && EarlyAt(busy, |busy|, e)
    ensures Max(c, e - 4) == c <==> e <= 4 || busy[e - 5].time < limit
  {
  }

  /** The window is a suffix of the busy period and never loses the last four departures. */
  lemma WindowKeepsFour(busy: seq<Departure>)
    requires busy != [] && InOrder(busy)
    ensures IsSuffix(Window(busy), busy) && |Window(busy)| >= Min(4, |busy|)
  {
    var n := |busy|;
    var limit := busy[n - 1].time - INTERVAL;
    WindowsAsSuffixes(busy, limit);
    CutStops(busy, n, 0, limit);
    EarlyIsPrefix(busy, n);
    StartClosedForm(busy, n, Early(busy, n), Cut(busy, n, 0, limit));
  }

  /** Five departures at 30 ms and one at 60 ms: the wrapped limit forgets a departure that
      is only 30 ms old. */
  lemma WindowLosesEarlyDeparture(size: nat)
    ensures var e := Departure(30, size);
      var busy := [e, e, e, e, e, Departure(60, size)];
      Window(busy) != Trim(busy, 10)
  {
    var e := Departure(30, size);
    var busy := [e, e, e, e, e, Departure(60, size)];
    WindowExactIff(busy);
    assert busy[0].time == 30 && busy[4].time == 30 && busy[5].time == 60;
    assert Early(busy, 6) == Early(busy, 5) == 5;
  }

  /** The rate is the floor of eight times the bytes that left after the front, over the elapsed time. */
  lemma RateIsBytesOverTime(w: seq<Departure>, t: nat, size: nat)
    requires |w| >= 4 && w[0].time < t
    ensures var bits := 8 * Total(w[1..] + [Departure(t, size)]);
      Rate(w, t, size) * (t - w[0].time) <= bits < (Rate(w, t, size) + 1) * (t - w[0].time)
  {
    TotalAppend(w[1..], Departure(t, size));
    var bits, dt := 8 * Total(w[1..] + [Departure(t, size)]), t - w[0].time;
    assert Rate(w, t, size) == bits / dt;
    assert bits == dt * (bits / dt) + bits % dt;
  }

  lemma {:induction false} TotalAppend(w: seq<Departure>, e: Departure)
    ensures Total(w + [e]) == Total(w) + e.size
  {
    if w == [] {
      assert w + [e] == [e];
    } else {
      assert (w + [e])[1..] == w[1..] + [e];
      TotalAppend(w[1..], e);
    }
  }
}

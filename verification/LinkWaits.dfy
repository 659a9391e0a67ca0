/** How long the emulator may sleep until the next delivery opportunity: `wait_time`. */
module LinkWaits {
  import opened Packets
  import opened Disciplines
  import opened Schedules
  import opened Links
  import opened LinkRuns

  /** Opportunity k is the first one, from number `from` on, that is due after `now`. */
  ghost predicate IsNext(s: seq<nat>, repeat: bool, from: nat, now: nat, k: nat)
    requires s != []
  {
    && from <= k && DeliveryTime(s, repeat, k) > now
    && forall j :: from <= j < k ==> DeliveryTime(s, repeat, j) <= now
  }

  /** The gap between now and a delivery time, cut down to the 32 bits of the result. */
  function Sleep(t: nat, now: nat): nat {
    if t <= now then 0 else (t - now) % U32
  }

  /** `wait_time` */
  ghost function WaitTime<Q(!new)>(c: Setup<Q>, s: Link<Q>, now: nat): nat
    requires ValidSetup(c) && Ready(c, s) && CursorOk(c, s) && now < NEVER
  {
    Sleep(Time(c, Rationalize(c, s, now)), now)
  }

  lemma NextIsUnique(s: seq<nat>, repeat: bool, from: nat, now: nat, j: nat, k: nat)
    requires s != [] && IsNext(s, repeat, from, now, j) && IsNext(s, repeat, from, now, k)
    ensures j == k
  {
    hide DeliveryTime;
    assert !(j < k) && !(k < j);
  }

  lemma TimeAtCursor(s: seq<nat>, repeat: bool, k: nat)
    requires ValidSchedule(s) && (repeat || k <= |s|)
    ensures InRange(s, CursorAt(s, repeat, k)) && TimeOf(s, CursorAt(s, repeat, k)) == DeliveryTime(s, repeat, k)
  {
    if repeat || k < |s| { AdvanceFollowsClosedForm(s, repeat, k); }
  }

  /** The emulation stops at the first opportunity after `now`. */
  lemma NextIsReached<Q(!new)>(c: Setup<Q>, s: Link<Q>, now: nat)
    requires ValidSetup(c) && Inv(c, s) && now < NEVER
    ensures var r := Rationalize(c, s, now);
      && IsNext(c.schedule, c.repeat, |s.hist.net|, now, |r.hist.net|)
      && Time(c, r) == DeliveryTime(c.schedule, c.repeat, |r.hist.net|)
  {
    hide Rationalize, Good, IsServiceCurve, Lawful, CursorAt, DeliveryTime, Ready;
    InvIsReady(c, s);
    RationalizeKeeps(c, s, now);
    TimeAtCursor(c.schedule, c.repeat, |Rationalize(c, s, now).hist.net|);
  }

  /** What a call returns: the gap to opportunity k, modulo 2^32. */
  lemma WaitIsGap<Q(!new)>(c: Setup<Q>, s: Link<Q>, now: nat, k: nat)
    requires ValidSetup(c) && Inv(c, s) && now < NEVER && IsNext(c.schedule, c.repeat, |s.hist.net|, now, k)
    ensures WaitTime(c, s, now) == (DeliveryTime(c.schedule, c.repeat, k) - now) % U32
  {
    hide Rationalize, Good, IsServiceCurve, Lawful, CursorAt, DeliveryTime, IsNext;
    InvIsReady(c, s);
    NextIsReached(c, s, now);
    var n := |Rationalize(c, s, now).hist.net|;
    NextIsUnique(c.schedule, c.repeat, |s.hist.net|, now, k, n);
    NextIsLater(c.schedule, c.repeat, |s.hist.net|, now, k);
  }

  lemma NextIsLater(s: seq<nat>, repeat: bool, from: nat, now: nat, k: nat)
    requires s != [] && IsNext(s, repeat, from, now, k)
    ensures DeliveryTime(s, repeat, k) > now
  {
  }

  /** On every run: with k the first unused opportunity after `now`, the wait is zero exactly when
      its time is a multiple of 2^32 ms ahead, and it is the true gap when that is shorter. */
  lemma WaitIsZeroIff<Q(!new)>(c: Setup<Q>, q: Q, es: seq<Event>, now: nat, k: nat)
    requires ValidSetup(c) && c.disc.valid(q) && c.disc.contents(q) == [] && now < NEVER
    ensures var s := From(c, q, es);
      && Ready(c, s) && CursorOk(c, s)
      && (IsNext(c.schedule, c.repeat, |s.hist.net|, now, k) ==>
            var gap := DeliveryTime(c.schedule, c.repeat, k) - now;
            && (WaitTime(c, s, now) == 0 <==> gap % U32 == 0)
            && (gap < U32 ==> WaitTime(c, s, now) == gap > 0))
  {
    hide From, WaitTime, Good, IsServiceCurve, CursorAt, DeliveryTime, IsNext, ValidSetup;
    EveryRunKeepsInv(c, q, es);
    var s := From(c, q, es);
    InvIsReady(c, s);
    if IsNext(c.schedule, c.repeat, |s.hist.net|, now, k) {
      WaitIsGap(c, s, now, k);
      NextIsLater(c.schedule, c.repeat, |s.hist.net|, now, k);
    }
  }

  lemma InvIsReady<Q>(c: Setup<Q>, s: Link<Q>)
    requires Inv(c, s)
    ensures Ready(c, s) && CursorOk(c, s)
  {
  }

  // ----- a clock that does not run backwards -----

  /** No clock reading so far was later than `now`. */
  ghost predicate ReadUpTo(es: seq<Event>, now: nat) {
    forall i :: 0 <= i < |es| ==> match es[i]
      case Offer(p) => p.arrival <= now
      case Tick(t) => t <= now
      case Write => true
  }

  /** All opportunities used so far were due by `now`. */
  ghost predicate UsedAreDue<Q>(c: Setup<Q>, s: Link<Q>, now: nat)
    requires c.schedule != []
  {
    forall j :: 0 <= j < |s.hist.net| ==> DeliveryTime(c.schedule, c.repeat, j) <= now
  }

  lemma RationalizeUsesDue<Q(!new)>(c: Setup<Q>, s: Link<Q>, t: nat, now: nat)
    requires ValidSetup(c) && Inv(c, s) && UsedAreDue(c, s, now) && t <= now && t < NEVER
    ensures UsedAreDue(c, Rationalize(c, s, t), now)
  {
    hide Rationalize, Good, IsServiceCurve, Lawful, CursorAt, DeliveryTime, Ready;
    RationalizeKeeps(c, s, t);
  }

  lemma {:induction false} RunUsesDue<Q(!new)>(c: Setup<Q>, s: Link<Q>, es: seq<Event>, now: nat)
    requires ValidSetup(c) && Inv(c, s) && UsedAreDue(c, s, now) && ReadUpTo(es, now)
    ensures UsedAreDue(c, Run(c, s, es), now)
    decreases |es|
  {
    hide Rationalize, Inv, Lawful, DeliveryTime, Ready;
    if es != [] {
      var e := es[0];
      StepKeeps(c, s, e);
      if Accepts(c, s, e) {
        match e
        case Offer(p) => RationalizeUsesDue(c, s, p.arrival, now);
        case Tick(t) => RationalizeUsesDue(c, s, t, now);
        case Write =>
      }
      RunUsesDue(c, Step(c, s, e), es[1..], now);
    }
  }

  /** Two consecutive opportunities of a repeated trace are at most one cycle apart. */
  lemma StepGap(s: seq<nat>, k: nat)
    requires ValidSchedule(s)
    ensures DeliveryTime(s, true, 0) <= s[|s| - 1]
    ensures DeliveryTime(s, true, k + 1) - DeliveryTime(s, true, k) <= s[|s| - 1]
  {
    var n, last := |s|, s[|s| - 1];
    DivModUnique(0, n, 0, 0);
    DivModStep(k, n);
    assert (k / n + 1) * last == k / n * last + last;
  }

  /** If everything before the next opportunity was due by `now`, it is at most a cycle away. */
  lemma NextIsNear(s: seq<nat>, from: nat, now: nat, k: nat)
    requires ValidSchedule(s) && IsNext(s, true, from, now, k)
    requires forall j :: 0 <= j < from ==> DeliveryTime(s, true, j) <= now
    ensures DeliveryTime(s, true, k) - now <= s[|s| - 1]
  {
    hide DeliveryTime;
    if k > 0 {
      StepGap(s, k - 1);
      assert DeliveryTime(s, true, k - 1) <= now;
    } else {
      StepGap(s, 0);
    }
  }

  lemma FromUsesDue<Q(!new)>(c: Setup<Q>, q: Q, es: seq<Event>, now: nat)
    requires ValidSetup(c) && c.disc.valid(q) && c.disc.contents(q) == [] && ReadUpTo(es, now)
    ensures c.schedule != [] && UsedAreDue(c, From(c, q, es), now)
  {
    hide Inv, Lawful, DeliveryTime, Run, ReadUpTo;
    StartInv(c, q);
    RunUsesDue(c, Start(c, q), es, now);
  }

  /** With a repeated trace shorter than 2^32 ms and a clock that has not run backwards the wait is
      never zero, on every run: it is the true gap, at most one cycle. */
  lemma SteadyWaitIsPositive<Q(!new)>(c: Setup<Q>, q: Q, es: seq<Event>, now: nat)
    requires ValidSetup(c) && c.disc.valid(q) && c.disc.contents(q) == [] && now < NEVER
    requires c.repeat && c.schedule[|c.schedule| - 1] < U32 && ReadUpTo(es, now)
    ensures var s := From(c, q, es);
      && Ready(c, s) && CursorOk(c, s)
      && 0 < WaitTime(c, s, now) <= c.schedule[|c.schedule| - 1]
  {
    hide From, WaitTime, Rationalize, Inv, Ready, DeliveryTime, Lawful, IsNext, ReadUpTo;
    FromUsesDue(c, q, es, now);
    EveryRunKeepsInv(c, q, es);
    var s := From(c, q, es);
    InvIsReady(c, s);
    NextIsReached(c, s, now);
    var k := |Rationalize(c, s, now).hist.net|;
    WaitIsZeroIff(c, q, es, now, k);
    NextIsNear(c.schedule, |s.hist.net|, now, k);
  }
}

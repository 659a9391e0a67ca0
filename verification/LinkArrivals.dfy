/** Service as a function of arrivals and trace alone, under a clock that does not run backwards. */
module LinkArrivals {
  import opened Packets
  import opened Disciplines
  import opened Schedules
  import opened Links
  import opened LinkRuns
  import opened LinkWaits

  /** Bytes of the packets that arrived before time t. */
  function BytesBefore(ps: seq<Packet>, t: nat): nat {
    if ps == [] then 0
    else
      var p := ps[|ps| - 1];
      BytesBefore(ps[..|ps| - 1], t) + if p.arrival < t then p.size else 0
  }

  lemma BytesBeforeAppend(ps: seq<Packet>, p: Packet, t: nat)
    ensures BytesBefore(ps + [p], t) == BytesBefore(ps, t) + if p.arrival < t then p.size else 0
  {
    assert (ps + [p])[..|ps|] == ps;
  }

  lemma {:induction false} AllBefore(ps: seq<Packet>, t: nat)
    requires forall p :: p in ps ==> p.arrival < t
    ensures BytesBefore(ps, t) == Bytes(ps)
  {
    if ps != [] {
      var n := |ps| - 1;
      assert forall p :: p in ps[..n] ==> p in ps;
      AllBefore(ps[..n], t);
      BytesAppend(ps[..n], ps[n]);
      assert ps == ps[..n] + [ps[n]];
    }
  }

  // ----- what events bring -----

  /** The packets that events bring to the queue: those that fit. */
  function Arriving(es: seq<Event>): seq<Packet>
    decreases |es|
  {
    if es == [] then []
    else (if BringsPacket(es[0]) then [es[0].packet] else []) + Arriving(es[1..])
  }

  predicate BringsPacket(e: Event) {
    e.Offer? && Fits(e.packet) && e.packet.arrival < NEVER
  }

  lemma {:induction false} ArrivingAppend(es: seq<Event>, e: Event)
    ensures Arriving(es + [e]) == Arriving(es) + if BringsPacket(e) then [e.packet] else []
    decreases |es|
  {
    hide Fits;
    var last := if BringsPacket(e) then [e.packet] else [];
    if es == [] {
      assert es + [e] == [e] && [e][1..] == [];
      assert last + [] == last == [] + last;
    } else {
      assert (es + [e])[1..] == es[1..] + [e];
      ArrivingAppend(es[1..], e);
      ConcatAssoc(if BringsPacket(es[0]) then [es[0].packet] else [], Arriving(es[1..]), last);
    }
  }

  /** A discipline whose assertions no packet can violate. */
  ghost predicate AdmitsAll<Q(!new)>(d: Discipline<Q>) {
    forall q, p :: d.valid(q) ==> d.admits(q, p)
  }

  lemma RationalizeArrivals<Q(!new)>(c: Setup<Q>, s: Link<Q>, now: nat)
    requires ValidSetup(c) && Inv(c, s) && now < NEVER
    ensures Ready(c, s) && CursorOk(c, s)
    ensures var r := Rationalize(c, s, now);
      r.hist.arrivals == s.hist.arrivals && Inv(c, r) && c.disc.valid(r.queue)
  {
    hide Rationalize, Inv, ValidSetup, DeliveryTime;
    InvIsReady(c, s);
    RationalizeKeeps(c, s, now);
    InvIsReady(c, Rationalize(c, s, now));
  }

  lemma StepArrivals<Q(!new)>(c: Setup<Q>, s: Link<Q>, e: Event)
    requires ValidSetup(c) && Inv(c, s) && AdmitsAll(c.disc)
    ensures Step(c, s, e).hist.arrivals == s.hist.arrivals + if BringsPacket(e) then [e.packet] else []
  {
    hide Rationalize, Inv, ValidSetup, Ready, Missing;
    match e
    case Offer(p) => if p.arrival < NEVER { RationalizeArrivals(c, s, p.arrival); }
    case Tick(t) => if t < NEVER { RationalizeArrivals(c, s, t); }
    case Write =>
  }

  /** The arrivals a link records are the packets the events bring, if its discipline admits all. */
  lemma {:induction false} RunArrivals<Q(!new)>(c: Setup<Q>, s: Link<Q>, es: seq<Event>)
    requires ValidSetup(c) && Inv(c, s) && AdmitsAll(c.disc)
    ensures Run(c, s, es).hist.arrivals == s.hist.arrivals + Arriving(es)
    decreases |es|
  {
    hide Inv, ValidSetup, Step, AdmitsAll;
    if es == [] {
      assert s.hist.arrivals + [] == s.hist.arrivals;
    } else {
      StepKeeps(c, s, es[0]);
      StepArrivals(c, s, es[0]);
      RunArrivals(c, Step(c, s, es[0]), es[1..]);
      ConcatAssoc(s.hist.arrivals, if BringsPacket(es[0]) then [es[0].packet] else [], Arriving(es[1..]));
    }
  }

  // ----- a clock that does not run backwards -----

  /** The clock after an event, and after many. */
  function ClockAfter(e: Event, now: nat): nat {
    match e
    case Offer(p) => p.arrival
    case Tick(t) => t
    case Write => now
  }

  function LastReading(es: seq<Event>, now: nat): nat
    decreases |es|
  {
    if es == [] then now else LastReading(es[1..], ClockAfter(es[0], now))
  }

  /** No clock reading is earlier than `now` or than a reading before it. */
  ghost predicate SteadyFrom(es: seq<Event>, now: nat)
    decreases |es|
  {
    es == [] || (now <= ClockAfter(es[0], now) && SteadyFrom(es[1..], ClockAfter(es[0], now)))
  }

  /** All arrivals are before the next opportunity, and what each used one was offered is what had
      arrived before it. */
  ghost predicate Recorded<Q>(c: Setup<Q>, s: Link<Q>) {
    && c.schedule != [] && CursorOk(c, s) && |s.hist.offered| == |s.hist.net|
    && (forall p :: p in s.hist.arrivals ==> p.arrival < Time(c, s))
    && forall j :: 0 <= j < |s.hist.offered| ==>
         s.hist.offered[j] == BytesBefore(s.hist.arrivals, DeliveryTime(c.schedule, c.repeat, j))
  }

  lemma OpportunityOffers<Q(!new)>(c: Setup<Q>, s: Link<Q>)
    requires ValidSetup(c) && Ready(c, s) && InRange(c.schedule, s.cursor)
    ensures Opportunity(c, s).hist.offered == s.hist.offered + [Bytes(s.hist.arrivals)]
  {
    hide Drain, Lawful, Ready, Bytes;
  }

  lemma OpportunityRecords<Q(!new)>(c: Setup<Q>, s: Link<Q>)
    requires ValidSetup(c) && Inv(c, s) && !s.cursor.finished && Recorded(c, s)
    ensures Recorded(c, Opportunity(c, s))
  {
    hide Opportunity, Good, IsServiceCurve, Lawful, DeliveryTime, BytesBefore;
    InvIsReady(c, s);
    OpportunityKeeps(c, s);
    OpportunityOffers(c, s);
    TimeAtCursor(c.schedule, c.repeat, |s.hist.net|);
    AllBefore(s.hist.arrivals, Time(c, s));
  }

  lemma {:induction false} RationalizeRecords<Q(!new)>(c: Setup<Q>, s: Link<Q>, now: nat)
    requires ValidSetup(c) && Inv(c, s) && Ready(c, s) && CursorOk(c, s) && now < NEVER && Recorded(c, s)
    ensures Recorded(c, Rationalize(c, s, now))
    decreases if s.cursor.finished then 0 else 1, Max(0, now + 1 - s.cursor.base),
              |c.schedule| - s.cursor.next
  {
    hide Opportunity, Inv, Ready, Recorded, Lawful;
    if Time(c, s) <= now {
      NextIndex(s.cursor.next, |c.schedule|);
      OpportunityKeeps(c, s);
      InvIsReady(c, Opportunity(c, s));
      OpportunityRecords(c, s);
      RationalizeRecords(c, Opportunity(c, s), now);
    }
  }

  lemma EnqueueRecords<Q>(c: Setup<Q>, s: Link<Q>, p: Packet)
    requires Recorded(c, s) && p.arrival < Time(c, s) && UsedAreDue(c, s, p.arrival)
    ensures Recorded(c, Enqueued(c, s, p))
  {
    hide BytesBefore, DeliveryTime, Missing;
    forall j | 0 <= j < |s.hist.offered|
      ensures s.hist.offered[j] == BytesBefore(s.hist.arrivals + [p], DeliveryTime(c.schedule, c.repeat, j))
    {
      BytesBeforeAppend(s.hist.arrivals, p, DeliveryTime(c.schedule, c.repeat, j));
    }
  }

  /** The state after one event, with the latest clock reading. */
  ghost predicate Follows<Q>(c: Setup<Q>, s: Link<Q>, now: nat) {
    Inv(c, s) && Recorded(c, s) && UsedAreDue(c, s, now)
  }

  lemma TickFollows<Q(!new)>(c: Setup<Q>, s: Link<Q>, t: nat, now: nat)
    requires ValidSetup(c) && Follows(c, s, now) && now <= t < NEVER
    ensures Ready(c, s) && CursorOk(c, s) && Follows(c, Rationalize(c, s, t), t)
  {
    hide Inv, Recorded, Rationalize, DeliveryTime, Ready;
    InvIsReady(c, s);
    assert c.schedule != [] by { RecordedHasTrace(c, s); }
    RationalizeKeeps(c, s, t);
    RationalizeRecords(c, s, t);
    RationalizeUsesDue(c, s, t, t);
  }

  lemma RecordedHasTrace<Q>(c: Setup<Q>, s: Link<Q>)
    requires Recorded(c, s)
    ensures c.schedule != []
  {
  }

  lemma OfferFollows<Q(!new)>(c: Setup<Q>, s: Link<Q>, p: Packet, now: nat)
    requires ValidSetup(c) && Follows(c, s, now) && now <= p.arrival && Accepts(c, s, Offer(p))
    ensures Follows(c, Arrive(c, s, p), p.arrival)
  {
    hide Inv, Recorded, Rationalize, DeliveryTime, Ready, Enqueued;
    TickFollows(c, s, p.arrival, now);
    ArriveKeeps(c, s, p);
    EnqueueRecords(c, Rationalize(c, s, p.arrival), p);
    EnqueueUsesNothing(c, Rationalize(c, s, p.arrival), p);
  }

  lemma EnqueueUsesNothing<Q>(c: Setup<Q>, s: Link<Q>, p: Packet)
    ensures Enqueued(c, s, p).hist.net == s.hist.net
  {
  }

  lemma StepFollows<Q(!new)>(c: Setup<Q>, s: Link<Q>, e: Event, now: nat)
    requires ValidSetup(c) && Follows(c, s, now) && now <= ClockAfter(e, now)
    ensures Follows(c, Step(c, s, e), ClockAfter(e, now))
  {
    hide Inv, Rationalize, DeliveryTime, Ready, Arrive;
    if Accepts(c, s, e) {
      match e
      case Offer(p) => OfferFollows(c, s, p, now);
      case Tick(t) => TickFollows(c, s, t, now);
      case Write => FlushKeeps(c, s);
    }
  }

  lemma {:induction false} RunFollows<Q(!new)>(c: Setup<Q>, s: Link<Q>, es: seq<Event>, now: nat)
    requires ValidSetup(c) && Follows(c, s, now) && SteadyFrom(es, now)
    ensures Follows(c, Run(c, s, es), LastReading(es, now))
    decreases |es|
  {
    hide Follows, Step;
    if es != [] {
      StepFollows(c, s, es[0], now);
      RunFollows(c, Step(c, s, es[0]), es[1..], ClockAfter(es[0], now));
    }
  }

  lemma StartFollows<Q(!new)>(c: Setup<Q>, q: Q)
    requires ValidSetup(c) && c.disc.valid(q) && c.disc.contents(q) == []
    ensures Follows(c, Start(c, q), 0)
  {
    hide Inv;
    StartInv(c, q);
  }

  lemma {:induction false} RunAppend<Q(!new)>(c: Setup<Q>, s: Link<Q>, es: seq<Event>, e: Event)
    requires ValidSetup(c)
    ensures Run(c, s, es + [e]) == Step(c, Run(c, s, es), e)
    decreases |es|
  {
    hide Step, ValidSetup;
    if es == [] {
      assert [e][1..] == [] && es + [e] == [e];
    } else {
      assert (es + [e])[1..] == es[1..] + [e];
      RunAppend(c, Step(c, s, es[0]), es[1..], e);
    }
  }

  /** What had arrived before each of the first n opportunities. */
  ghost function Offers(s: seq<nat>, repeat: bool, arrivals: seq<Packet>, n: nat): seq<int>
    requires s != []
  {
    seq(n, j requires 0 <= j < n => BytesBefore(arrivals, DeliveryTime(s, repeat, j)))
  }

  lemma RecordedOffers<Q>(c: Setup<Q>, s: Link<Q>)
    requires Recorded(c, s)
    ensures s.hist.offered == Offers(c.schedule, c.repeat, s.hist.arrivals, |s.hist.net|)
  {
    hide BytesBefore, DeliveryTime;
  }

  /** After a reading of the clock, exactly the opportunities due by then have been used. */
  lemma UsedIsDecided<Q(!new)>(c: Setup<Q>, s: Link<Q>, now: nat, n: nat)
    requires ValidSetup(c) && Inv(c, s) && UsedAreDue(c, s, now) && now < NEVER
    requires IsNext(c.schedule, c.repeat, 0, now, n)
    ensures Ready(c, s) && CursorOk(c, s) && |Rationalize(c, s, now).hist.net| == n
  {
    hide Rationalize, Inv, Ready, DeliveryTime;
    InvIsReady(c, s);
    NextIsReached(c, s, now);
    NextIsUnique(c.schedule, c.repeat, 0, now, n, |Rationalize(c, s, now).hist.net|);
  }

  /** The bytes served by any time are decided by arrivals and trace: on every run of a link that
      loses nothing, under a clock that does not run backwards, they are the min-plus formula over
      the n opportunities due by then and the bytes that arrived before each of them. */
  lemma ArrivalsDecideService<Q(!new)>(c: Setup<Q>, q: Q, es: seq<Event>, now: nat, n: nat, v: int)
    requires ValidSetup(c) && Lossless(c.disc) && c.disc.valid(q) && c.disc.contents(q) == []
    requires SteadyFrom(es, 0) && LastReading(es, 0) <= now < NEVER && IsNext(c.schedule, c.repeat, 0, now, n)
    ensures var s := From(c, q, es + [Tick(now)]);
      IsServiceCurve(Offers(c.schedule, c.repeat, s.hist.arrivals, n), v) <==> v == s.hist.served
  {
    hide Inv, Recorded, Rationalize, DeliveryTime, Lossless, IsServiceCurve, Offers, Ready, Run, IsNext;
    StartFollows(c, q);
    RunFollows(c, Start(c, q), es, 0);
    var s0 := Run(c, Start(c, q), es);
    TickFollows(c, s0, now, LastReading(es, 0));
    DueLater(c, s0, LastReading(es, 0), now);
    UsedIsDecided(c, s0, now, n);
    RunAppend(c, Start(c, q), es, Tick(now));
    RecordedOffers(c, Rationalize(c, s0, now));
    LosslessFrom(c, q, es + [Tick(now)]);
    ServiceCurve(c, q, es + [Tick(now)], v);
  }

  /** The same in terms of the events alone, for a discipline that admits every packet: the bytes
      served by any time are decided by what was offered and the trace. */
  lemma EventsDecideService<Q(!new)>(c: Setup<Q>, q: Q, es: seq<Event>, now: nat, n: nat, v: int)
    requires ValidSetup(c) && Lossless(c.disc) && c.disc.valid(q) && c.disc.contents(q) == []
    requires SteadyFrom(es, 0) && LastReading(es, 0) <= now < NEVER && IsNext(c.schedule, c.repeat, 0, now, n)
    requires AdmitsAll(c.disc)
    ensures From(c, q, es + [Tick(now)]).hist.arrivals == Arriving(es)
    ensures IsServiceCurve(Offers(c.schedule, c.repeat, Arriving(es), n), v)
       <==> v == From(c, q, es + [Tick(now)]).hist.served
  {
    hide Inv, ValidSetup, Run, AdmitsAll, Lossless, IsServiceCurve, Offers, IsNext, SteadyFrom;
    ArrivalsDecideService(c, q, es, now, n, v);
    StartInv(c, q);
    RunArrivals(c, Start(c, q), es + [Tick(now)]);
    ArrivingAppend(es, Tick(now));
    assert [] + Arriving(es + [Tick(now)]) == Arriving(es);
  }

  lemma DueLater<Q>(c: Setup<Q>, s: Link<Q>, t: nat, now: nat)
    requires c.schedule != [] && UsedAreDue(c, s, t) && t <= now
    ensures UsedAreDue(c, s, now)
  {
  }

  // ----- delivery in order -----

  ghost predicate Rising(picks: seq<nat>) {
    forall j, k :: 0 <= j < k < |picks| ==> picks[j] < picks[k]
  }

  lemma {:induction false} RisesAboveIndex(picks: seq<nat>, i: nat)
    requires Rising(picks) && i < |picks|
    ensures picks[i] >= i
  {
    if i > 0 { RisesAboveIndex(picks, i - 1); }
  }

  lemma {:induction false} StaysBelowIndex(picks: seq<nat>, i: nat)
    requires Rising(picks) && i < |picks| && picks[|picks| - 1] < |picks|
    ensures picks[i] <= i
    decreases |picks| - i
  {
    if i + 1 < |picks| { StaysBelowIndex(picks, i + 1); }
  }

  /** A subsequence of the same length is the whole. */
  lemma WholeSubseq<T>(a: seq<T>, b: seq<T>)
    requires Subseq(a, b) && |a| == |b|
    ensures a == b
  {
    hide Rising, Selects;
    var picks :| Selects(picks, a, b);
    forall i | 0 <= i < |a| ensures a[i] == b[i] {
      SelectsRise(picks, a, b, i);
      RisesAboveIndex(picks, i);
      StaysBelowIndex(picks, i);
    }
  }

  lemma SelectsRise<T>(picks: seq<nat>, a: seq<T>, b: seq<T>, i: nat)
    requires Selects(picks, a, b) && i < |a|
    ensures |picks| == |a| && Rising(picks) && picks[|a| - 1] < |b| && picks[i] < |b| && a[i] == b[picks[i]]
  {
  }

  /** Without loss, what was written and is ready to be written is a prefix of the arrivals, and
      what is in transit and queued is the rest of them. */
  lemma LosslessDeliversPrefix<Q(!new)>(c: Setup<Q>, q: Q, es: seq<Event>)
    requires ValidSetup(c) && Lossless(c.disc) && c.disc.valid(q) && c.disc.contents(q) == []
    ensures var s := From(c, q, es);
      Kept(c, s) == s.hist.arrivals && s.hist.written + s.output <= s.hist.arrivals
  {
    hide From, Subseq, Lossless, ValidSetup;
    LosslessFrom(c, q, es);
    RunAccounts(c, q, es);
    var s := From(c, q, es);
    assert |multiset(s.hist.arrivals)| == |multiset(Kept(c, s))|;
    WholeSubseq(Kept(c, s), s.hist.arrivals);
  }
}

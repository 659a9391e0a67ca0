/** A run of the link whose rate window forgets a recent departure. */
module LinkExamples {
  import opened Packets
  import opened Disciplines
  import opened Schedules
  import opened RateWindow
  import opened Links
  import opened LinkRuns
  import opened LinkWaits
  import opened LinkArrivals
  import opened DroppingQueues
  import LinkDisciplines
  import CoDel

  /** Only full packets are queued, and nothing is in transit. */
  ghost predicate Full(s: Link<seq<Packet>>) {
    s.left == 0 && forall i :: 0 <= i < |s.queue| ==> s.queue[i].size == PACKET_SIZE
  }

  lemma FullDrain(c: Setup<seq<Packet>>, s: Link<seq<Packet>>, t: nat)
    requires c.disc == Infinite() && Lawful(c.disc) && Ready(c, s) && Full(s) && s.queue != []
    ensures var r := Drain(c, s, PACKET_SIZE, t);
      && r.queue == s.queue[1..] && r.left == 0 && r.hist.busy == s.hist.busy + [Departure(t, PACKET_SIZE)]
  {
    hide Lawful, Rate, Record;
    LoadReady(c, s);
    var u := Load(c, s);
    assert Drain(c, Send(u, PACKET_SIZE, t), 0, t) == Send(u, PACKET_SIZE, t);
  }

  /** An opportunity sends exactly one full packet. */
  lemma FullOpportunity(c: Setup<seq<Packet>>, s: Link<seq<Packet>>)
    requires c.disc == Infinite() && ValidSetup(c) && Inv(c, s) && !s.cursor.finished && Full(s) && s.queue != []
    ensures Ready(c, s) && CursorOk(c, s)
    ensures var r := Opportunity(c, s);
      && r.queue == s.queue[1..] && Full(r)
      && r.hist.busy == s.hist.busy + [Departure(Time(c, s), PACKET_SIZE)]
  {
    hide Drain, Inv, Lawful, Ready;
    InvIsReady(c, s);
    var s0 := s.(cursor := Schedules.Advance(c.schedule, c.repeat, s.cursor));
    ReadyIgnoresCursor(c, s, s0.cursor);
    FullDrain(c, s0, Time(c, s));
  }

  /** The departures of n full packets from opportunity k on. */
  ghost function Departures(s: seq<nat>, repeat: bool, k: nat, n: nat): seq<Departure>
    requires s != []
    decreases n
  {
    if n == 0 then []
    else [Departure(DeliveryTime(s, repeat, k), PACKET_SIZE)] + Departures(s, repeat, k + 1, n - 1)
  }

  /** As long as full packets are queued, one leaves per opportunity due, at its time. */
  lemma {:induction false} FullRationalize(c: Setup<seq<Packet>>, s: Link<seq<Packet>>, now: nat, n: nat)
    requires c.disc == Infinite() && ValidSetup(c) && Inv(c, s) && Ready(c, s) && CursorOk(c, s) && Full(s)
    requires now < NEVER && IsNext(c.schedule, c.repeat, |s.hist.net|, now, |s.hist.net| + n) && n <= |s.queue|
    ensures var r := Rationalize(c, s, now);
      && r.queue == s.queue[n..] && Full(r)
      && r.hist.busy == s.hist.busy + Departures(c.schedule, c.repeat, |s.hist.net|, n)
    decreases n
  {
    hide Opportunity, Good, IsServiceCurve, Ready, Lawful, CursorAt, DeliveryTime, Full;
    var k := |s.hist.net|;
    TimeAtCursor(c.schedule, c.repeat, k);
    if n == 0 {
      assert Rationalize(c, s, now) == s;
    } else {
      FullOpportunity(c, s);
      OpportunityKeeps(c, s);
      var r := Opportunity(c, s);
      InvIsReady(c, r);
      FullRationalize(c, r, now, n - 1);
      ConcatAssoc(s.hist.busy, [Departure(Time(c, s), PACKET_SIZE)],
                  Departures(c.schedule, c.repeat, k + 1, n - 1));
    }
  }

  /** A full packet that arrives before the next opportunity is queued, and nothing else happens. */
  lemma FullArrival(c: Setup<seq<Packet>>, s: Link<seq<Packet>>, p: Packet)
    requires c.disc == Infinite() && ValidSetup(c) && Inv(c, s) && CursorOk(c, s) && Full(s)
    requires p.size == PACKET_SIZE && p.arrival < Time(c, s) && p.arrival < NEVER
    ensures var r := Step(c, s, Offer(p));
      && r.queue == s.queue + [p] && Full(r) && r.cursor == s.cursor
      && r.hist.net == s.hist.net && r.hist.busy == s.hist.busy
  {
    hide Inv, Lawful, Ready, Missing;
    InvIsReady(c, s);
    assert Rationalize(c, s, p.arrival) == s;
  }

  lemma {:induction false} FullArrivals(c: Setup<seq<Packet>>, s: Link<seq<Packet>>, p: Packet, n: nat)
    requires c.disc == Infinite() && ValidSetup(c) && Inv(c, s) && CursorOk(c, s) && Full(s)
    requires p.size == PACKET_SIZE && p.arrival < Time(c, s) && p.arrival < NEVER
    ensures var r := Run(c, s, seq(n, _ => Offer(p)));
      && |r.queue| == |s.queue| + n && Full(r) && r.hist.net == s.hist.net && r.hist.busy == s.hist.busy
    decreases n
  {
    hide Inv, Step, ValidSetup, Full;
    if n > 0 {
      var es := seq(n, _ => Offer(p));
      var r := Step(c, s, Offer(p));
      assert es[0] == Offer(p) && es[1..] == seq(n - 1, _ => Offer(p));
      FullArrival(c, s, p);
      StepKeeps(c, s, Offer(p));
      FullArrivals(c, r, p, n - 1);
    }
  }

  /** n full packets that arrived at 0 wait for the first n opportunities of a trace. */
  lemma FullBurst(c: Setup<seq<Packet>>, p: Packet, n: nat, now: nat)
    requires ValidSetup(c) && c.disc == Infinite() && c.schedule[0] > 0 && p.arrival == 0 && p.size == PACKET_SIZE
    requires now < NEVER && IsNext(c.schedule, c.repeat, 0, now, n)
    ensures From(c, [], seq(n, _ => Offer(p)) + [Tick(now)]).hist.busy == Departures(c.schedule, c.repeat, 0, n)
  {
    hide Inv, Lawful, Run, Rationalize, DeliveryTime, Ready, IsNext, Departures;
    var es := seq(n, _ => Offer(p));
    StartInv(c, []);
    FullArrivals(c, Start(c, []), p, n);
    RunKeeps(c, Start(c, []), es);
    var s := Run(c, Start(c, []), es);
    InvIsReady(c, s);
    RunAppend(c, Start(c, []), es, Tick(now));
    FullRationalize(c, s, now, n);
    var d := Departures(c.schedule, c.repeat, 0, n);
    assert [] + d == d;
  }

  // ----- a window that forgets -----

  const BURST: seq<nat> := [30, 30, 30, 30, 30, 60]

  lemma BurstTimes(repeat: bool)
    ensures forall m :: 0 <= m < 6 ==> DeliveryTime(BURST, repeat, m) == BURST[m]
    ensures IsNext(BURST, repeat, 0, 60, 6)
  {
    forall m | 0 <= m < 6 ensures DeliveryTime(BURST, repeat, m) == BURST[m] {
      assert m % 6 == m && m / 6 == 0;
    }
    assert 6 % 6 == 0 && 6 / 6 == 1;
  }

  lemma SixDepartures(repeat: bool)
    ensures var e := Departure(30, PACKET_SIZE);
      Departures(BURST, repeat, 0, 6) == [e, e, e, e, e, Departure(60, PACKET_SIZE)]
  {
    hide DeliveryTime;
    BurstTimes(repeat);
    assert Departures(BURST, repeat, 6, 0) == [];
    assert Departures(BURST, repeat, 5, 1) == [Departure(60, PACKET_SIZE)];
    assert |Departures(BURST, repeat, 3, 3)| == 3;
  }

  /** A run of the link that forgets a departure only 30 ms old: its window is not that of the
      busy period trimmed from scratch. */
  lemma LinkForgetsDeparture(repeat: bool, p: Packet)
    requires p.arrival == 0 && p.size == PACKET_SIZE
    ensures var c := Setup(BURST, repeat, Infinite());
      ValidSetup(c) && var s := From(c, [], seq(6, _ => Offer(p)) + [Tick(60)]);
      s.trace != Trim(s.hist.busy, 10)
  {
    hide ValidSetup, From, Window, Trim, Subseq, Kept, CursorAt, Departures, IsNext;
    var c := Setup(BURST, repeat, Infinite());
    LinkDisciplines.AllDisciplinesFit(BURST, repeat, Limits(1, 1), CoDel.Tuning(Limits(1, 1), 1, 1, (t, n) => t));
    BurstTimes(repeat);
    FullBurst(c, p, 6, 60);
    SixDepartures(repeat);
    RunAccounts(c, [], seq(6, _ => Offer(p)) + [Tick(60)]);
    WindowLosesEarlyDeparture(PACKET_SIZE);
  }

  // ----- a rate -----

  const STEADY: seq<nat> := [10, 20, 30, 40, 50]

  lemma SteadyTimes(repeat: bool)
    ensures forall m :: 0 <= m < 5 ==> DeliveryTime(STEADY, repeat, m) == STEADY[m]
    ensures IsNext(STEADY, repeat, 0, 50, 5)
  {
    forall m | 0 <= m < 5 ensures DeliveryTime(STEADY, repeat, m) == STEADY[m] {
      assert m % 5 == m && m / 5 == 0;
    }
    assert 5 % 5 == 0 && 5 / 5 == 1;
  }

  function At(t: nat): Departure {
    Departure(t, 1504)
  }

  lemma FiveDepartures(repeat: bool)
    ensures Departures(STEADY, repeat, 0, 5) == [At(10), At(20), At(30), At(40), At(50)]
  {
    hide DeliveryTime;
    SteadyTimes(repeat);
    assert Departures(STEADY, repeat, 5, 0) == [];
    assert Departures(STEADY, repeat, 4, 1) == [At(50)];
    assert |Departures(STEADY, repeat, 2, 3)| == 3;
  }

  /** Fewer than five departures are never trimmed. */
  lemma {:induction false} ShortWindow(busy: seq<Departure>)
    requires |busy| <= 4
    ensures Window(busy) == busy
  {
    if busy != [] {
      ShortWindow(busy[..|busy| - 1]);
      assert busy[..|busy| - 1] + [busy[|busy| - 1]] == busy;
    }
  }

  lemma RateOfFive()
    ensures LastRate([At(10), At(20), At(30), At(40), At(50)]) == 1203
  {
    hide Window, Total;
    var busy := [At(10), At(20), At(30), At(40), At(50)];
    var w := [At(10), At(20), At(30), At(40)];
    assert busy[..4] == w;
    ShortWindow(w);
    TotalOfFour();
  }

  lemma TotalOfFour()
    ensures Total([At(10), At(20), At(30), At(40)]) == 6016
  {
    var w := [At(10), At(20), At(30), At(40)];
    assert w[1..] == [At(20), At(30), At(40)] && w[1..][1..] == [At(30), At(40)] && w[1..][1..][1..] == [At(40)];
    assert Total([At(40)]) == 1504 by { assert [At(40)][1..] == []; }
  }

  /** Five packets of 1504 bytes that leave every 10 ms: the link measures 48128 / 40 bits per ms. */
  lemma LinkMeasuresRate(repeat: bool, p: Packet)
    requires p.arrival == 0 && p.size == 1504
    ensures var c := Setup(STEADY, repeat, Infinite());
      ValidSetup(c) && From(c, [], seq(5, _ => Offer(p)) + [Tick(50)]).rate == 1203
  {
    hide ValidSetup, From, Window, Subseq, Kept, CursorAt, Departures, IsNext, LastRate;
    var c := Setup(STEADY, repeat, Infinite());
    LinkDisciplines.AllDisciplinesFit(STEADY, repeat, Limits(1, 1), CoDel.Tuning(Limits(1, 1), 1, 1, (t, n) => t));
    SteadyTimes(repeat);
    FullBurst(c, p, 5, 50);
    FiveDepartures(repeat);
    EveryRunKeepsInv(c, [], seq(5, _ => Offer(p)) + [Tick(50)]);
    RateOfFive();
  }
}

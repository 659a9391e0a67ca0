/** The Octopus router inside the link: what a link loses is what its message rules say. */
module OctopusLinks {
  import opened Packets
  import opened Disciplines
  import opened Schedules
  import opened Links
  import opened LinkRuns
  import opened LinkWaits
  import opened LinkArrivals
  import opened RateWindow
  import opened DroppingQueues
  import Octopus
  import OctopusRuns
  import OctopusServices

  type OctopusState = Link<Octopus.Clocked>

  // ----- what the ports have sent -----

  /** The past of the ports after they sent some packets. */
  function Sent(ps: seq<Packet>): OctopusRuns.Past {
    if ps == [] then OctopusRuns.Initial().past
    else OctopusRuns.Offered(Sent(ps[..|ps| - 1]), ps[|ps| - 1], false)
  }

  /** Every packet obeys the sending rule of its port: FIRST MID* LAST or SOLO, one message at a
      time, numbers never reused. */
  ghost predicate LegalStream(ps: seq<Packet>) {
    forall k :: 0 <= k < |ps| ==> OctopusRuns.Legal(Sent(ps[..k]), ps[k])
  }

  predicate SamePorts(h: OctopusRuns.Past, g: OctopusRuns.Past) {
    h.open == g.open && h.seen == g.seen
  }

  lemma SentAppend(ps: seq<Packet>, p: Packet)
    ensures Sent(ps + [p]) == OctopusRuns.Offered(Sent(ps), p, false)
  {
    assert (ps + [p])[..|ps|] == ps;
  }

  lemma OfferKeepsPorts(l: Limits, r: OctopusRuns.Run, p: Packet, h: OctopusRuns.Past)
    requires SamePorts(r.past, h) && OctopusRuns.Legal(h, p) && OctopusRuns.Inv(l, r)
    ensures OctopusRuns.Legal(r.past, p) && Octopus.Admits(l, r.state, p)
    ensures !Octopus.EnqueueAborts(l, r.state, p) && p.header.threshold < |Octopus.Row(r.state, p.header.port, -1)|
    ensures var g := OctopusRuns.Offer(l, r, p);
      g.state == Octopus.Enqueued(l, r.state, p) && SamePorts(g.past, OctopusRuns.Offered(h, p, false))
  {
    hide OctopusRuns.Inv, Octopus.Enqueued, Octopus.Admits, Octopus.IsValid;
    OctopusRuns.LegalIsAdmitted(l, r, p);
    OctopusRuns.StatesAreValid(l, r);
    Octopus.EnqueueKeeps(l, r.state, p);
  }

  // ----- a link run is a run of enqueues and dequeues -----

  /** Everything that has left the queue through the link. */
  function Out(s: OctopusState): seq<Packet> {
    s.hist.written + s.output + InTransit(s)
  }

  /** The packets of the enqueue calls, in order. */
  function Calls(cs: seq<OctopusServices.Call>): seq<Packet> {
    if cs == [] then []
    else
      var call := cs[|cs| - 1];
      Calls(cs[..|cs| - 1]) + if call.Enqueue? then [call.packet] else []
  }

  /** The queue of the link stands where the calls led it: they enqueued what arrived at the link,
      returned what it sent on, and lost what it lost, in the same order. */
  ghost predicate Mirrors(s: OctopusState, v: OctopusServices.Service, calls: seq<Packet>) {
    && v.run.state == s.queue.state && v.taken == s.queue.taken
    && v.returned == Out(s) && v.lost == s.hist.discarded
    && calls == s.hist.arrivals && v.offered == s.hist.arrivals
    && SamePorts(v.run.past, Sent(s.hist.arrivals))
  }

  ghost predicate Mirrored(l: Limits, env: nat -> Octopus.Reading, s: OctopusState) {
    s.queue.env == env && exists cs :: Mirrors(s, OctopusServices.Services(l, env, cs), Calls(cs))
  }

  lemma ServicesAppend(
    l: Limits, env: nat -> Octopus.Reading, cs: seq<OctopusServices.Call>, call: OctopusServices.Call)
    ensures OctopusServices.Services(l, env, cs + [call])
         == OctopusServices.Serve(l, env, OctopusServices.Services(l, env, cs), call)
    ensures Calls(cs + [call]) == Calls(cs) + if call.Enqueue? then [call.packet] else []
  {
    hide OctopusServices.Serve;
    assert (cs + [call])[..|cs|] == cs;
  }

  /** A dequeue of the discipline is a dequeue of the service, and the ports do not notice. */
  lemma DequeueServes(l: Limits, env: nat -> Octopus.Reading, v: OctopusServices.Service)
    requires OctopusServices.ServiceOk(l, v) && v.run.state.queue != []
    ensures Octopus.IsValid(l, v.run.state)
    ensures var o := Octopus.Dequeuing(l, v.run.state, env, v.taken);
      var w := OctopusServices.Serve(l, env, v, OctopusServices.Dequeue);
      && w.run.state == o.rest && w.taken == o.taken && w.returned == v.returned + [o.packet]
      && w.lost == v.lost + o.discarded && w.offered == v.offered
      && SamePorts(w.run.past, v.run.past)
  {
    hide OctopusRuns.Inv, Octopus.Dequeuing, OctopusServices.LeaveMany, OctopusServices.Sorted, Octopus.IsValid;
    OctopusServices.DequeueIsDepartures(l, v.run, env, v.taken);
  }

  lemma LoadMirrors(l: Limits, env: nat -> Octopus.Reading, c: Setup<Octopus.Clocked>, s: OctopusState)
    requires c.disc == Octopus.OctopusDiscipline(l) && Ready(c, s) && Mirrored(l, env, s) && !Exhausted(c, s)
    ensures Mirrored(l, env, Load(c, s))
  {
    hide OctopusServices.Services, OctopusServices.Serve, OctopusServices.ServiceOk, Octopus.Dequeuing, Sent,
         Octopus.IsValid, Calls;
    if s.left == 0 {
      var cs :| Mirrors(s, OctopusServices.Services(l, env, cs), Calls(cs));
      OctopusServices.ServicesKeepOk(l, env, cs);
      DequeueServes(l, env, OctopusServices.Services(l, env, cs));
      ServicesAppend(l, env, cs, OctopusServices.Dequeue);
      var o := Octopus.Dequeuing(l, s.queue.state, env, s.queue.taken);
      Octopus.DequeueTakes(l, s.queue.state, env, s.queue.taken);
      assert o.packet in s.queue.state.queue;
      assert Fits(o.packet);
      assert s.hist.written + s.output + [] == s.hist.written + s.output;
      assert s.hist.discarded + o.discarded + [] == s.hist.discarded + o.discarded && Calls(cs) + [] == Calls(cs);
      var ds := cs + [OctopusServices.Dequeue];
      assert Mirrors(Load(c, s), OctopusServices.Services(l, env, ds), Calls(ds));
    }
  }

  lemma SendMirrors(l: Limits, env: nat -> Octopus.Reading, s: OctopusState, n: nat, t: nat)
    requires Mirrored(l, env, s) && 0 < n <= s.left
    ensures Mirrored(l, env, Send(s, n, t))
  {
    hide OctopusServices.Services, Rate, Record, Sent, Calls;
    var cs :| Mirrors(s, OctopusServices.Services(l, env, cs), Calls(cs));
    if n == s.left {
      ConcatAssoc(s.hist.written, s.output, [s.transit]);
      assert s.hist.written + (s.output + [s.transit]) + [] == s.hist.written + s.output + [s.transit];
    }
    assert Mirrors(Send(s, n, t), OctopusServices.Services(l, env, cs), Calls(cs));
  }

  /** Mirroring does not depend on the cursor, the rate window or the accounts of opportunities. */
  lemma MirrorsIgnore(l: Limits, env: nat -> Octopus.Reading, s: OctopusState, r: OctopusState)
    requires Mirrored(l, env, s) && r.queue == s.queue && r.left == s.left && r.transit == s.transit
    requires r.output == s.output && r.hist.written == s.hist.written
    requires r.hist.arrivals == s.hist.arrivals && r.hist.discarded == s.hist.discarded
    ensures Mirrored(l, env, r)
  {
    hide OctopusServices.Services, Sent, Calls;
    var cs :| Mirrors(s, OctopusServices.Services(l, env, cs), Calls(cs));
    assert Mirrors(r, OctopusServices.Services(l, env, cs), Calls(cs));
  }

  lemma DrainMirrors(l: Limits, env: nat -> Octopus.Reading, c: Setup<Octopus.Clocked>, s: OctopusState, b: nat, t: nat)
    requires c.disc == Octopus.OctopusDiscipline(l) && Lawful(c.disc) && Ready(c, s) && Mirrored(l, env, s)
    ensures Mirrored(l, env, Drain(c, s, b, t))
  {
    hide Lawful, Ready, Drain, Mirrored, Octopus.OctopusDiscipline, Send, Load;
    var G := u => Ready(c, u) && Mirrored(l, env, u);
    forall u | G(u) && !Exhausted(c, u) ensures G(Load(c, u)) {
      LoadReady(c, u);
      LoadMirrors(l, env, c, u);
    }
    forall u, n: nat | G(u) && 0 < n <= u.left ensures G(Send(u, n, t)) {
      SendReady(c, u, n, t);
      SendMirrors(l, env, u, n, t);
    }
    forall u | G(u) ensures G(Idle(u)) {
      IdleReady(c, u);
      MirrorsIgnore(l, env, u, Idle(u));
    }
    DrainRule(c, s, b, t, G);
    assert G(Drain(c, s, b, t));
  }

  lemma OpportunityMirrors(l: Limits, env: nat -> Octopus.Reading, c: Setup<Octopus.Clocked>, s: OctopusState)
    requires c.disc == Octopus.OctopusDiscipline(l) && ValidSetup(c) && Ready(c, s) && CursorOk(c, s)
    requires Mirrored(l, env, s)
    ensures Mirrored(l, env, Opportunity(c, s))
  {
    hide Lawful, Ready, Drain, Mirrored, Octopus.OctopusDiscipline;
    var s0 := s.(cursor := Schedules.Advance(c.schedule, c.repeat, s.cursor));
    ReadyIgnoresCursor(c, s, s0.cursor);
    MirrorsIgnore(l, env, s, s0);
    DrainMirrors(l, env, c, s0, PACKET_SIZE, Time(c, s));
    MirrorsIgnore(l, env, Drain(c, s0, PACKET_SIZE, Time(c, s)), Opportunity(c, s));
  }

  lemma {:induction false} RationalizeMirrors(
    l: Limits, env: nat -> Octopus.Reading, c: Setup<Octopus.Clocked>, s: OctopusState, now: nat)
    requires c.disc == Octopus.OctopusDiscipline(l) && ValidSetup(c) && Ready(c, s) && CursorOk(c, s)
    requires Mirrored(l, env, s) && now < NEVER
    ensures Mirrored(l, env, Rationalize(c, s, now))
    decreases if s.cursor.finished then 0 else 1, Max(0, now + 1 - s.cursor.base),
              |c.schedule| - s.cursor.next
  {
    hide Lawful, Ready, Opportunity, Mirrored, Octopus.OctopusDiscipline;
    if Time(c, s) <= now {
      NextIndex(s.cursor.next, |c.schedule|);
      OpportunityMirrors(l, env, c, s);
      RationalizeMirrors(l, env, c, Opportunity(c, s), now);
    }
  }

  /** A packet that obeys the sending rule is admitted, and the queue goes on mirroring the calls. */
  lemma EnqueueMirrors(l: Limits, env: nat -> Octopus.Reading, c: Setup<Octopus.Clocked>, s: OctopusState, p: Packet)
    requires c.disc == Octopus.OctopusDiscipline(l) && Mirrored(l, env, s)
    requires OctopusRuns.Legal(Sent(s.hist.arrivals), p)
    ensures c.disc.admits(s.queue, p) && Mirrored(l, env, Enqueued(c, s, p))
  {
    hide OctopusServices.Services, Sent, OctopusRuns.Legal, Octopus.Enqueued, Octopus.Admits, OctopusRuns.Inv,
         OctopusRuns.Offered, Missing, Octopus.Row, Calls, Octopus.Accepts, OctopusRuns.Offer;
    var cs :| Mirrors(s, OctopusServices.Services(l, env, cs), Calls(cs));
    var v := OctopusServices.Services(l, env, cs);
    OctopusServices.ServicesKeepOk(l, env, cs);
    OfferKeepsPorts(l, v.run, p, Sent(s.hist.arrivals));
    ServicesAppend(l, env, cs, OctopusServices.Enqueue(p));
    SentAppend(s.hist.arrivals, p);
    EnqueueMisses(l, s.queue.state, p);
    var ds := cs + [OctopusServices.Enqueue(p)];
    assert Mirrors(Enqueued(c, s, p), OctopusServices.Services(l, env, ds), Calls(ds));
  }

  lemma {:induction false} ShiftedIsConstant(c: seq<Packet>, p: Packet, i: nat)
    requires i < |c| && c == (c + [p])[1..]
    ensures c[i] == p
    decreases |c| - i
  {
    assert c[i] == (c + [p])[i + 1];
    if i + 1 < |c| { ShiftedIsConstant(c, p, i + 1); }
  }

  /** The link counts exactly the refused packet as missing. */
  lemma EnqueueMisses(l: Limits, s: Octopus.State, p: Packet)
    requires !Octopus.EnqueueAborts(l, s, p) && p.header.threshold < |Octopus.Row(s, p.header.port, -1)|
    ensures Missing(s.queue, p, Octopus.Enqueued(l, s, p).queue) == if Octopus.Accepts(l, s, p) then [] else [p]
  {
    hide Octopus.Accepts, Octopus.Row, Octopus.CountArrival, Octopus.NoteDropper;
    var c := s.queue;
    assert (c + [p])[0..] == c + [p];
    if IsSuffix(c, c + [p]) && c != [] { ShiftedIsConstant(c, p, 0); }
  }

  // ----- every run -----

  lemma LegalPrefix(ps: seq<Packet>, p: Packet, more: seq<Packet>)
    requires LegalStream(ps + ([p] + more))
    ensures OctopusRuns.Legal(Sent(ps), p)
  {
    hide Sent, OctopusRuns.Legal;
    var all := ps + ([p] + more);
    assert all[..|ps|] == ps && all[|ps|] == p;
  }

  lemma OfferMirrors(
    l: Limits, env: nat -> Octopus.Reading, c: Setup<Octopus.Clocked>, s: OctopusState, p: Packet)
    requires c.disc == Octopus.OctopusDiscipline(l) && ValidSetup(c) && Inv(c, s) && Mirrored(l, env, s)
    requires Fits(p) && p.arrival < NEVER && OctopusRuns.Legal(Sent(s.hist.arrivals), p)
    ensures var r := Step(c, s, Offer(p)); Mirrored(l, env, r) && r.hist.arrivals == s.hist.arrivals + [p]
  {
    hide Rationalize, Inv, ValidSetup, Ready, Mirrored, Octopus.OctopusDiscipline, OctopusRuns.Legal, Sent, Missing;
    RationalizeArrivals(c, s, p.arrival);
    RationalizeMirrors(l, env, c, s, p.arrival);
    EnqueueMirrors(l, env, c, Rationalize(c, s, p.arrival), p);
  }

  lemma TickMirrors(
    l: Limits, env: nat -> Octopus.Reading, c: Setup<Octopus.Clocked>, s: OctopusState, e: Event)
    requires c.disc == Octopus.OctopusDiscipline(l) && ValidSetup(c) && Inv(c, s) && Mirrored(l, env, s)
    requires !BringsPacket(e)
    ensures var r := Step(c, s, e); Mirrored(l, env, r) && r.hist.arrivals == s.hist.arrivals
  {
    hide Rationalize, Inv, ValidSetup, Ready, Mirrored, Octopus.OctopusDiscipline;
    match e
    case Offer(p) =>
    case Tick(now) =>
      if now < NEVER {
        RationalizeArrivals(c, s, now);
        RationalizeMirrors(l, env, c, s, now);
      }
    case Write => FlushMirrors(l, env, s);
  }

  lemma FlushMirrors(l: Limits, env: nat -> Octopus.Reading, s: OctopusState)
    requires Mirrored(l, env, s)
    ensures Mirrored(l, env, Flush(s))
  {
    hide OctopusServices.Services, Sent, Calls;
    var cs :| Mirrors(s, OctopusServices.Services(l, env, cs), Calls(cs));
    assert s.hist.written + s.output + [] == s.hist.written + s.output;
    assert Mirrors(Flush(s), OctopusServices.Services(l, env, cs), Calls(cs));
  }

  lemma {:induction false} RunMirrors(
    l: Limits, env: nat -> Octopus.Reading, c: Setup<Octopus.Clocked>, s: OctopusState, es: seq<Event>)
    requires c.disc == Octopus.OctopusDiscipline(l) && ValidSetup(c) && Inv(c, s) && Mirrored(l, env, s)
    requires LegalStream(s.hist.arrivals + Arriving(es))
    ensures var r := Run(c, s, es); Mirrored(l, env, r) && r.hist.arrivals == s.hist.arrivals + Arriving(es)
    decreases |es|
  {
    hide Inv, ValidSetup, Step, Mirrored, Octopus.OctopusDiscipline, LegalStream;
    if es == [] {
      assert s.hist.arrivals + [] == s.hist.arrivals;
    } else {
      var e, more := es[0], Arriving(es[1..]);
      StepKeeps(c, s, e);
      if !BringsPacket(e) {
        TickMirrors(l, env, c, s, e);
        assert Arriving(es) == [] + more == more;
      } else {
        LegalPrefix(s.hist.arrivals, e.packet, more);
        OfferMirrors(l, env, c, s, e.packet);
        ConcatAssoc(s.hist.arrivals, [e.packet], more);
      }
      RunMirrors(l, env, c, Step(c, s, e), es[1..]);
    }
  }

  // ----- what the link loses -----

  /** The router inside the link behaves as the calls `cs` say. They enqueued exactly what arrived
      and returned exactly what the link sent on. The link lost, in this order, exactly what they
      lost: the arrivals that were refused, and the departed packets that were marked with another
      one behind them. */
  ghost predicate Explains(
    l: Limits, env: nat -> Octopus.Reading, cs: seq<OctopusServices.Call>, s: OctopusState)
  {
    var v := OctopusServices.Services(l, env, cs);
    var h := v.run.past;
    && v.run.state == s.queue.state && Calls(cs) == s.hist.arrivals && v.returned == Out(s)
    && s.hist.discarded == v.lost && multiset(s.hist.discarded) == multiset(v.discarded) + multiset(v.refused)
    && multiset(s.hist.arrivals) == multiset(h.accepted) + multiset(v.refused)
    && |h.marks| <= |h.accepted| && |h.depth| == |h.marks|
    && v.discarded == OctopusServices.Sorted(h, |h.marks|, true)
    && v.returned == OctopusServices.Sorted(h, |h.marks|, false)
  }

  lemma MirrorExplains(
    l: Limits, env: nat -> Octopus.Reading, cs: seq<OctopusServices.Call>, s: OctopusState)
    requires Mirrors(s, OctopusServices.Services(l, env, cs), Calls(cs))
    ensures Explains(l, env, cs, s)
  {
    hide OctopusServices.Services, Sent, Calls, OctopusServices.Sorted;
    OctopusServices.ServicesBalance(l, env, cs);
    OctopusServices.DiscardedAreTheMarked(l, env, cs);
  }

  /** A router that has seen nothing. */
  function NewRouter(env: nat -> Octopus.Reading): Octopus.Clocked {
    Octopus.Clocked(OctopusRuns.Initial().state, env, 0)
  }

  lemma StartMirrors(l: Limits, env: nat -> Octopus.Reading, c: Setup<Octopus.Clocked>)
    requires c.disc == Octopus.OctopusDiscipline(l)
    ensures c.disc.valid(NewRouter(env)) && c.disc.contents(NewRouter(env)) == []
    ensures Mirrored(l, env, Start(c, NewRouter(env)))
  {
    assert Mirrors(Start(c, NewRouter(env)), OctopusServices.Services(l, env, []), Calls([]));
  }

  /** On every run of a link with an Octopus queue whose ports obey the sending rule, every packet
      that fits is admitted, and there is a run of enqueues of exactly these packets and of dequeues
      that explains all the link sent and lost and that drops whole messages only. */
  lemma LinkDropsWholeMessages(
    s: seq<nat>, repeat: bool, l: Limits, env: nat -> Octopus.Reading, es: seq<Event>)
    returns (cs: seq<OctopusServices.Call>)
    requires ValidSchedule(s) && forall i :: 0 <= i < |s| ==> s[i] < NEVER
    requires LegalStream(Arriving(es))
    ensures var c := Setup(s, repeat, Octopus.OctopusDiscipline(l));
      && ValidSetup(c) && From(c, NewRouter(env), es).hist.arrivals == Arriving(es)
      && Explains(l, env, cs, From(c, NewRouter(env), es)) && Calls(cs) == Arriving(es)
      && OctopusServices.DropsWholeMessages(OctopusServices.Services(l, env, cs).run.past)
  {
    hide Octopus.OctopusDiscipline, OctopusServices.Services, LegalStream, Explains, Inv, Lawful, Calls,
         OctopusServices.DropsWholeMessages;
    Octopus.OctopusIsLawful(l);
    var c := Setup(s, repeat, Octopus.OctopusDiscipline(l));
    StartMirrors(l, env, c);
    StartInv(c, NewRouter(env));
    assert [] + Arriving(es) == Arriving(es);
    RunMirrors(l, env, c, Start(c, NewRouter(env)), es);
    var r := From(c, NewRouter(env), es);
    cs :| Mirrors(r, OctopusServices.Services(l, env, cs), Calls(cs));
    MirrorExplains(l, env, cs, r);
    OctopusServices.MessagesShareFate(l, env, cs);
  }
}

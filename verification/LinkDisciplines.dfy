/** The link theorems for the four queue disciplines of this repository. */
module LinkDisciplines {
  import opened Packets
  import opened Disciplines
  import opened Schedules
  import opened Links
  import opened LinkRuns
  import opened LinkWaits
  import opened LinkArrivals
  import opened DroppingQueues
  import CoDel
  import Octopus

  /** Every discipline can drive every valid trace. */
  lemma AllDisciplinesFit(s: seq<nat>, repeat: bool, l: Limits, c: CoDel.Tuning)
    requires ValidSchedule(s) && forall i :: 0 <= i < |s| ==> s[i] < NEVER
    ensures ValidSetup(Setup(s, repeat, Infinite()))
    ensures ValidSetup(Setup(s, repeat, DropHeadDiscipline(l)))
    ensures ValidSetup(Setup(s, repeat, CoDel.CoDelDiscipline(c)))
    ensures ValidSetup(Setup(s, repeat, Octopus.OctopusDiscipline(l)))
  {
    hide Lawful, Infinite, DropHeadDiscipline, CoDel.CoDelDiscipline, Octopus.OctopusDiscipline;
    InfiniteIsLossless();
    DropHeadIsLawful(l);
    CoDel.CoDelIsLawful(c);
    Octopus.OctopusIsLawful(l);
  }

  /** Conservation across the link: on every run, under every clock, arrivals are exactly what was
      written, is ready, in transit, queued or thrown away, and what is kept is in arrival order. */
  ghost predicate Accounted<Q>(c: Setup<Q>, s: Link<Q>) {
    && multiset(s.hist.arrivals) == multiset(Kept(c, s)) + multiset(s.hist.discarded)
    && Subseq(Kept(c, s), s.hist.arrivals)
  }

  lemma CoDelLinkConserves(s: seq<nat>, repeat: bool, c: CoDel.Tuning, q: CoDel.Clocked, es: seq<Event>)
    requires ValidSchedule(s) && forall i :: 0 <= i < |s| ==> s[i] < NEVER
    requires q.state.queue == []
    ensures var setup := Setup(s, repeat, CoDel.CoDelDiscipline(c));
      ValidSetup(setup) && Accounted(setup, From(setup, q, es))
  {
    hide ValidSetup, Subseq, From;
    AllDisciplinesFit(s, repeat, Limits(1, 1), c);
    RunAccounts(Setup(s, repeat, CoDel.CoDelDiscipline(c)), q, es);
  }

  lemma OctopusLinkConserves(s: seq<nat>, repeat: bool, l: Limits, q: Octopus.Clocked, es: seq<Event>)
    requires ValidSchedule(s) && forall i :: 0 <= i < |s| ==> s[i] < NEVER
    requires Octopus.IsValid(l, q.state) && q.state.queue == []
    ensures var setup := Setup(s, repeat, Octopus.OctopusDiscipline(l));
      ValidSetup(setup) && Accounted(setup, From(setup, q, es))
  {
    hide ValidSetup, Subseq, From, Octopus.IsValid;
    AllDisciplinesFit(s, repeat, l, CoDel.Tuning(l, 1, 1, (t, n) => t));
    RunAccounts(Setup(s, repeat, Octopus.OctopusDiscipline(l)), q, es);
  }

  /** On the infinite queue the link is the exact min-plus server of the bytes offered to it. */
  lemma InfiniteLinkServes(s: seq<nat>, repeat: bool, es: seq<Event>)
    requires ValidSchedule(s) && forall i :: 0 <= i < |s| ==> s[i] < NEVER
    ensures ValidSetup(Setup(s, repeat, Infinite()))
    ensures var r := From(Setup(s, repeat, Infinite()), [], es);
      && IsServiceCurve(r.hist.offered, r.hist.served)
      && Bytes(r.hist.arrivals) == r.hist.served + Backlog(Setup(s, repeat, Infinite()), r)
  {
    hide ValidSetup, IsServiceCurve, Lossless, Lawful, From;
    AllDisciplinesFit(s, repeat, Limits(1, 1), CoDel.Tuning(Limits(1, 1), 1, 1, (t, n) => t));
    InfiniteIsLossless();
    LosslessService(Setup(s, repeat, Infinite()), [], es);
  }

  /** With the infinite queue and a clock that does not run backwards, the bytes served by any time
      are decided by the packets offered and the trace. */
  lemma InfiniteLinkIsDecided(s: seq<nat>, repeat: bool, es: seq<Event>, now: nat, n: nat, v: int)
    requires ValidSchedule(s) && forall i :: 0 <= i < |s| ==> s[i] < NEVER
    requires SteadyFrom(es, 0) && LastReading(es, 0) <= now < NEVER && IsNext(s, repeat, 0, now, n)
    ensures ValidSetup(Setup(s, repeat, Infinite()))
    ensures IsServiceCurve(Offers(s, repeat, Arriving(es), n), v)
       <==> v == From(Setup(s, repeat, Infinite()), [], es + [Tick(now)]).hist.served
  {
    hide ValidSetup, IsServiceCurve, Lossless, Lawful, From, Offers, SteadyFrom, IsNext;
    AllDisciplinesFit(s, repeat, Limits(1, 1), CoDel.Tuning(Limits(1, 1), 1, 1, (t, n) => t));
    InfiniteIsLossless();
    EventsDecideService(Setup(s, repeat, Infinite()), [], es, now, n, v);
  }

  /** A link with a drop-head queue is work-conserving on every run, whatever it drops on arrival. */
  lemma DropHeadLinkWorks(s: seq<nat>, repeat: bool, l: Limits, es: seq<Event>)
    requires ValidSchedule(s) && forall i :: 0 <= i < |s| ==> s[i] < NEVER
    ensures ValidSetup(Setup(s, repeat, DropHeadDiscipline(l)))
    ensures var c := Setup(s, repeat, DropHeadDiscipline(l));
      var r := From(c, [], es);
      && Links.Ready(c, r) && CursorOk(c, r)
      && (!r.cursor.finished ==>
            Opportunity(c, r).hist.served == r.hist.served + Min(PACKET_SIZE, Backlog(c, r)))
  {
    hide ValidSetup, KeepsOnDequeue, From, Opportunity;
    AllDisciplinesFit(s, repeat, l, CoDel.Tuning(l, 1, 1, (t, n) => t));
    DropHeadKeepsOnDequeue(l);
    WorkConserving(Setup(s, repeat, DropHeadDiscipline(l)), [], es);
  }

  /** A wait of zero although the link is idle: the only opportunity of a trace lies 2^32 ms ahead. */
  lemma WaitMayBeZero(repeat: bool)
    ensures var c := Setup([U32], repeat, Infinite());
      var s := From(c, [], []);
      ValidSetup(c) && Links.Ready(c, s) && CursorOk(c, s) && Time(c, s) == U32 && WaitTime(c, s, 0) == 0
  {
    AllDisciplinesFit([U32], repeat, Limits(1, 1), CoDel.Tuning(Limits(1, 1), 1, 1, (t, n) => t));
  }
}

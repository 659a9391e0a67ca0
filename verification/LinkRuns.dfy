/** What every run of the link keeps, for every lawful discipline and every clock. */
module LinkRuns {
  import opened Packets
  import opened Disciplines
  import opened Schedules
  import opened RateWindow
  import opened Links

  // ----- the accounts of packets and bytes -----

  function InTransit<Q>(s: Link<Q>): seq<Packet> {
    if s.left > 0 then [s.transit] else []
  }

  /** Every packet that has not been thrown away, oldest first. */
  function Kept<Q>(c: Setup<Q>, s: Link<Q>): seq<Packet> {
    s.hist.written + s.output + InTransit(s) + Queued(c, s)
  }

  /** Bytes not yet sent. */
  function Backlog<Q>(c: Setup<Q>, s: Link<Q>): nat {
    s.left + Bytes(Queued(c, s))
  }

  /** Arrivals are exactly what was kept and what was thrown away. */
  ghost predicate PacketsConserved<Q>(c: Setup<Q>, s: Link<Q>) {
    multiset(s.hist.arrivals) == multiset(Kept(c, s)) + multiset(s.hist.discarded)
  }

  /** What is kept is in arrival order. */
  ghost predicate OrderKept<Q>(c: Setup<Q>, s: Link<Q>) {
    Subseq(Kept(c, s), s.hist.arrivals)
  }

  /** The bytes that were not thrown away are sent or still to be sent. */
  ghost predicate BytesConserved<Q>(c: Setup<Q>, s: Link<Q>) {
    NetBytes(s.hist) == s.hist.served + Backlog(c, s)
  }

  ghost predicate Conserved<Q>(c: Setup<Q>, s: Link<Q>) {
    PacketsConserved(c, s) && OrderKept(c, s) && BytesConserved(c, s)
  }

  /** The rate window and the rate are the ones this busy period's departures, all up to time t,
      define, and these are departures of the last packets sent. */
  ghost predicate WindowOk<Q>(s: Link<Q>, t: nat) {
    && s.trace == Window(s.hist.busy) && s.rate == LastRate(s.hist.busy) && InOrder(s.hist.busy)
    && (forall i :: 0 <= i < |s.hist.busy| ==> s.hist.busy[i].time <= t)
    && LeftLast(s.hist.busy, s.hist.written + s.output)
  }

  /** The departures have the sizes of the last packets of `out`. */
  ghost predicate LeftLast(busy: seq<Departure>, out: seq<Packet>) {
    && |busy| <= |out|
    && forall i :: 0 <= i < |busy| ==> busy[i].size == out[i + (|out| - |busy|)].size
  }

  ghost predicate Good<Q>(c: Setup<Q>, s: Link<Q>, t: nat) {
    Ready(c, s) && ArrivedBefore(c, s, t) && Conserved(c, s) && WindowOk(s, t)
  }

  lemma SubseqPick<T>(past: seq<T>, before: seq<T>, x: T, after: seq<T>, rest: seq<T>, all: seq<T>)
    requires Subseq(past + before + [x] + after + rest, all)
    ensures Subseq(past + [x] + rest, all)
  {
    var k0, k1, k2 := past + before + [x] + after + rest, past + before + [x] + rest, past + [x] + rest;
    assert past + before + ([x] + rest) == k1 && past + ([x] + rest) == k2;
    SubseqDelete(past + before + [x], after, rest);
    SubseqDelete(past, before, [x] + rest);
    SubseqTrans(k2, k1, k0);
    SubseqTrans(k2, k0, all);
  }

  lemma MultisetPick<T>(past: seq<T>, before: seq<T>, x: T, after: seq<T>, rest: seq<T>, lost: seq<T>)
    ensures multiset(past + before + [x] + after + rest) + multiset(lost)
         == multiset(past + [x] + rest) + multiset(lost + before + after)
  {
  }

  lemma LoadConserves<Q(!new)>(c: Setup<Q>, s: Link<Q>)
    requires Lawful(c.disc) && Ready(c, s) && Conserved(c, s) && s.left == 0 && Queued(c, s) != []
    ensures Conserved(c, Load(c, s))
  {
    hide Lawful, Subseq, Bytes;
    LawfulDequeue(c.disc, s.queue);
    LoadReady(c, s);
    var r := c.disc.dequeue(s.queue);
    var past, rest := s.hist.written + s.output, c.disc.contents(r.rest);
    var u := Load(c, s);
    var was, kept := Kept(c, s), Kept(c, u);
    assert was == past + r.before + [r.packet] + r.after + rest;
    assert kept == past + [r.packet] + rest;
    assert OrderKept(c, u) by { SubseqPick(past, r.before, r.packet, r.after, rest, s.hist.arrivals); }
    assert PacketsConserved(c, u) by {
      MultisetPick(past, r.before, r.packet, r.after, rest, s.hist.discarded);
    }
    assert BytesConserved(c, u) by { LoadBytes(c, s, r); }
  }

  lemma LoadBytes<Q>(c: Setup<Q>, s: Link<Q>, r: Removal<Q>)
    requires Queued(c, s) == r.before + [r.packet] + r.after + c.disc.contents(r.rest)
    ensures Bytes(Queued(c, s))
         == Bytes(r.before) + r.packet.size + Bytes(r.after) + Bytes(c.disc.contents(r.rest))
    ensures Bytes(s.hist.discarded + r.before + r.after)
         == Bytes(s.hist.discarded) + Bytes(r.before) + Bytes(r.after)
  {
    BytesConcat(r.before + [r.packet] + r.after, c.disc.contents(r.rest));
    BytesConcat(r.before + [r.packet], r.after);
    BytesConcat(r.before, [r.packet]);
    BytesConcat(s.hist.discarded + r.before, r.after);
    BytesConcat(s.hist.discarded, r.before);
  }

  lemma SentIsKept<Q>(c: Setup<Q>, s: Link<Q>, n: nat, t: nat)
    requires 0 < n <= s.left
    ensures Kept(c, Send(s, n, t)) == Kept(c, s)
  {
    hide Rate, Record;
    if n == s.left {
      ConcatAssoc(s.hist.written, s.output, [s.transit]);
      assert s.hist.written + s.output + [s.transit] + [] == s.hist.written + s.output + [s.transit];
    }
  }

  lemma SentBytes<Q>(c: Setup<Q>, s: Link<Q>, n: nat, t: nat)
    requires 0 < n <= s.left
    ensures var r := Send(s, n, t);
      && r.hist.arrivals == s.hist.arrivals && r.hist.discarded == s.hist.discarded && Queued(c, r) == Queued(c, s)
      && r.hist.served + r.left == s.hist.served + s.left
  {
    hide Rate, Record;
  }

  lemma SendConserves<Q>(c: Setup<Q>, s: Link<Q>, n: nat, t: nat)
    requires Conserved(c, s) && 0 < n <= s.left
    ensures Conserved(c, Send(s, n, t))
  {
    hide Send, Kept, Queued, Subseq, Bytes;
    SentIsKept(c, s, n, t);
    SentBytes(c, s, n, t);
  }

  lemma DepartWindow<Q>(s: Link<Q>, t: nat)
    requires WindowOk(s, t)
    ensures WindowOk(Depart(s, t), t)
  {
    hide Rate, Record, Window, LastRate, InOrder, LeftLast;
    var e, busy := Departure(t, s.transit.size), s.hist.busy;
    InOrderOneMore(busy, e);
    ConcatAssoc(s.hist.written, s.output, [s.transit]);
    LeftOneMore(busy, s.hist.written + s.output, e, s.transit);
    WindowStep(busy, e);
  }

  lemma InOrderOneMore(busy: seq<Departure>, e: Departure)
    requires InOrder(busy) && forall i :: 0 <= i < |busy| ==> busy[i].time <= e.time
    ensures InOrder(busy + [e])
  {
  }

  lemma LeftOneMore(busy: seq<Departure>, out: seq<Packet>, e: Departure, p: Packet)
    requires LeftLast(busy, out) && e.size == p.size
    ensures LeftLast(busy + [e], out + [p])
  {
  }

  lemma WindowStep(busy: seq<Departure>, e: Departure)
    ensures Window(busy + [e]) == Record(Window(busy), e.time, e.size)
    ensures LastRate(busy + [e]) == Rate(Window(busy), e.time, e.size)
  {
    hide Rate, Record;
    assert (busy + [e])[..|busy|] == busy;
  }

  lemma SendKeeps<Q(!new)>(c: Setup<Q>, s: Link<Q>, n: nat, t: nat)
    requires Good(c, s, t) && 0 < n <= s.left
    ensures Good(c, Send(s, n, t), t)
  {
    SendConserves(c, s, n, t);
    DepartWindow(s.(left := s.left - n, hist := s.hist.(served := s.hist.served + n)), t);
  }

  lemma LoadKeeps<Q(!new)>(c: Setup<Q>, s: Link<Q>, t: nat)
    requires Lawful(c.disc) && Good(c, s, t) && (s.left > 0 || Queued(c, s) != [])
    ensures Good(c, Load(c, s), t) && Load(c, s).left > 0
  {
    LoadReady(c, s);
    LoadArrivedBefore(c, s, t);
    if s.left == 0 { LoadConserves(c, s); }
  }

  lemma IdleKeeps<Q>(c: Setup<Q>, s: Link<Q>, t: nat)
    requires Good(c, s, t)
    ensures Good(c, Idle(s), t)
  {
  }

  /** Nothing queued and nothing in transit. */
  predicate Exhausted<Q>(c: Setup<Q>, s: Link<Q>) {
    s.left == 0 && Queued(c, s) == []
  }

  /** The pieces of the inner loop keep G. */
  ghost predicate Stable<Q(!new)>(c: Setup<Q>, t: nat, G: Link<Q> -> bool) {
    && (forall u {:trigger G(u)} :: G(u) ==> Ready(c, u))
    && (forall u {:trigger Load(c, u)} :: G(u) && !Exhausted(c, u) ==> G(Load(c, u)))
    && (forall u, n: nat {:trigger Send(u, n, t)} :: G(u) && 0 < n <= u.left ==> G(Send(u, n, t)))
    && (forall u {:trigger Idle(u)} :: G(u) ==> G(Idle(u)))
  }

  /** Induction over the inner loop. */
  lemma {:induction false} DrainRule<Q(!new)>(c: Setup<Q>, s: Link<Q>, b: nat, t: nat, G: Link<Q> -> bool)
    requires Lawful(c.disc) && Stable(c, t, G) && G(s)
    ensures Ready(c, s) && G(Drain(c, s, b, t))
    decreases b
  {
    hide Lawful, Ready, Send, Load, Idle;
    if b > 0 && !Exhausted(c, s) {
      LoadReady(c, s);
      var v := Load(c, s);
      var n := Min(b, v.left);
      DrainRule(c, Send(v, n, t), b - n, t, G);
    }
  }

  lemma GoodIsStable<Q(!new)>(c: Setup<Q>, t: nat, G: Link<Q> -> bool)
    requires Lawful(c.disc) && G == (u => Good(c, u, t))
    ensures Stable(c, t, G)
  {
    forall u | G(u) && !Exhausted(c, u) ensures G(Load(c, u)) { LoadKeeps(c, u, t); }
    forall u, n: nat | G(u) && 0 < n <= u.left ensures G(Send(u, n, t)) { SendKeeps(c, u, n, t); }
    forall u | G(u) ensures G(Idle(u)) { IdleKeeps(c, u, t); }
  }

  lemma PassHistory<Q>(c: Setup<Q>, s: Link<Q>, n: nat, t: nat)
    requires n <= Load(c, s).left
    ensures var r := Send(Load(c, s), n, t);
      && r.hist.net == s.hist.net && r.hist.arrivals == s.hist.arrivals
      && r.hist.served == s.hist.served + n && s.hist.busy <= r.hist.busy
  {
  }

  /** The queue was found empty: a new busy period begins with the next departure. */
  ghost predicate IsIdle<Q>(s: Link<Q>) {
    s.hist.busy == [] && s.trace == [] && s.rate == UNKNOWN_RATE
  }

  /** The inner loop spends all b bytes, and the busy period goes on, or it finds nothing left to
      send, and the busy period is over. */
  lemma {:induction false} DrainSpends<Q(!new)>(c: Setup<Q>, s: Link<Q>, b: nat, t: nat)
    requires Lawful(c.disc) && Ready(c, s)
    ensures var r := Drain(c, s, b, t);
      && r.hist.net == s.hist.net && r.hist.arrivals == s.hist.arrivals
      && s.hist.served <= r.hist.served <= s.hist.served + b
      && (r.hist.served == s.hist.served + b ==> s.hist.busy <= r.hist.busy)
      && (r.hist.served < s.hist.served + b ==> Exhausted(c, r) && IsIdle(r))
    decreases b
  {
    hide Lawful, Ready, Send, Load;
    if b > 0 && !Exhausted(c, s) {
      LoadReady(c, s);
      var v := Load(c, s);
      var n := Min(b, v.left);
      PassHistory(c, s, n, t);
      SendReady(c, v, n, t);
      DrainSpends(c, Send(v, n, t), b - n, t);
    }
  }

  lemma SendReady<Q>(c: Setup<Q>, s: Link<Q>, n: nat, t: nat)
    requires Ready(c, s) && n <= s.left
    ensures Ready(c, Send(s, n, t))
  {
  }

  // ----- the service curve -----

  /** v is the least of 1504 n and, over all opportunities j < n, of net(j) + 1504 (n - 1 - j). */
  ghost predicate IsServiceCurve(net: seq<int>, v: int) {
    var n := |net|;
    && v <= PACKET_SIZE * n
    && (forall j :: 0 <= j < n ==> v <= net[j] + PACKET_SIZE * (n - 1 - j))
    && (v == PACKET_SIZE * n || exists j :: 0 <= j < n && v == net[j] + PACKET_SIZE * (n - 1 - j))
  }

  lemma CurveStep(net: seq<int>, v: int, a: int)
    requires IsServiceCurve(net, v)
    ensures IsServiceCurve(net + [a], Min(v + PACKET_SIZE, a))
  {
    var n, w := |net|, Min(v + PACKET_SIZE, a);
    var net' := net + [a];
    forall j | 0 <= j < n + 1 ensures w <= net'[j] + PACKET_SIZE * (n - j) {
      if j < n { assert net'[j] == net[j] && v <= net[j] + PACKET_SIZE * (n - 1 - j); }
    }
    if w == a {
      assert net'[n] == a && w == net'[n] + PACKET_SIZE * (n + 1 - 1 - n);
    } else if v != PACKET_SIZE * n {
      var j :| 0 <= j < n && v == net[j] + PACKET_SIZE * (n - 1 - j);
      assert w == net'[j] + PACKET_SIZE * (n + 1 - 1 - j);
    }
  }

  lemma CurveUnique(net: seq<int>, v: int, w: int)
    requires IsServiceCurve(net, v) && IsServiceCurve(net, w)
    ensures v == w
  {
  }

  // ----- one opportunity, and all opportunities up to a time -----

  /** The cursor stands where the closed form puts it after the opportunities used so far. */
  ghost predicate CursorInv<Q>(c: Setup<Q>, s: Link<Q>) {
    && c.schedule != [] && CursorOk(c, s)
    && s.cursor == CursorAt(c.schedule, c.repeat, |s.hist.net|)
    && (c.repeat || |s.hist.net| <= |c.schedule|)
  }

  /** What holds of a link between any two calls. */
  ghost predicate Inv<Q>(c: Setup<Q>, s: Link<Q>) {
    && CursorInv(c, s) && Good(c, s, Time(c, s))
    && IsServiceCurve(s.hist.net, s.hist.served)
  }

  ghost predicate UsedOne<Q>(s: Link<Q>, r: Link<Q>) {
    && r.hist.net == s.hist.net + [NetBytes(r.hist)] && r.hist.arrivals == s.hist.arrivals
    && r.hist.served == Min(s.hist.served + PACKET_SIZE, NetBytes(r.hist))
  }

  lemma GoodIgnores<Q>(c: Setup<Q>, s: Link<Q>, t: nat, cursor: Cursor,
                       offered: seq<int>, net: seq<int>, t': nat)
    requires Good(c, s, t) && t <= t'
    ensures Good(c, s.(cursor := cursor, hist := s.hist.(offered := offered, net := net)), t')
  {
    hide Subseq, Bytes, Window, InOrder;
  }

  lemma DrainKeepsGood<Q(!new)>(c: Setup<Q>, s: Link<Q>, b: nat, t: nat)
    requires Lawful(c.disc) && Good(c, s, t)
    ensures Good(c, Drain(c, s, b, t), t)
  {
    var G := u => Good(c, u, t);
    GoodIsStable(c, t, G);
    assert G(s);
    DrainRule(c, s, b, t, G);
    assert G(Drain(c, s, b, t));
  }

  lemma OpportunityGood<Q(!new)>(c: Setup<Q>, s: Link<Q>, t: nat)
    requires ValidSetup(c) && InRange(c.schedule, s.cursor) && Good(c, s, Time(c, s)) && Time(c, s) <= t
    ensures Good(c, Opportunity(c, s), t)
  {
    var next := Schedules.Advance(c.schedule, c.repeat, s.cursor);
    GoodIgnores(c, s, Time(c, s), next, s.hist.offered, s.hist.net, Time(c, s));
    var s0 := s.(cursor := next);
    DrainKeepsGood(c, s0, PACKET_SIZE, Time(c, s));
    var d := Drain(c, s0, PACKET_SIZE, Time(c, s));
    GoodIgnores(c, d, Time(c, s), d.cursor, s.hist.offered + [Bytes(s.hist.arrivals)],
                s.hist.net + [NetBytes(d.hist)], t);
  }

  /** One opportunity sends 1504 bytes, or everything that arrived and was not thrown away. */
  lemma OpportunityUses<Q(!new)>(c: Setup<Q>, s: Link<Q>)
    requires ValidSetup(c) && InRange(c.schedule, s.cursor) && Good(c, s, Time(c, s))
    ensures UsedOne(s, Opportunity(c, s))
  {
    hide Drain, Lawful, Schedules.Advance, ArrivedBefore, PacketsConserved, OrderKept, WindowOk, Ready;
    var s0 := s.(cursor := Schedules.Advance(c.schedule, c.repeat, s.cursor));
    ReadyIgnoresCursor(c, s, s0.cursor);
    var d, r := Drain(c, s0, PACKET_SIZE, Time(c, s)), Opportunity(c, s);
    OpportunityGood(c, s, Time(c, s));
    DrainSpends(c, s0, PACKET_SIZE, Time(c, s));
    assert Queued(c, r) == Queued(c, d);
    assert Exhausted(c, d) ==> Backlog(c, r) == 0;
  }

  lemma ReadyIgnoresCursor<Q>(c: Setup<Q>, s: Link<Q>, cursor: Cursor)
    requires Ready(c, s)
    ensures Ready(c, s.(cursor := cursor))
  {
  }

  lemma OpportunityCursor<Q(!new)>(c: Setup<Q>, s: Link<Q>)
    requires ValidSetup(c) && Ready(c, s) && CursorInv(c, s) && !s.cursor.finished
    ensures var r := Opportunity(c, s);
      |r.hist.net| == |s.hist.net| + 1 ==> CursorInv(c, r) && Time(c, s) <= Time(c, r)
  {
    AdvanceFollowsClosedForm(c.schedule, c.repeat, |s.hist.net|);
    OpportunityTime(c.schedule, c.repeat, |s.hist.net|);
  }

  lemma OpportunityKeeps<Q(!new)>(c: Setup<Q>, s: Link<Q>)
    requires ValidSetup(c) && Inv(c, s) && !s.cursor.finished
    ensures var r := Opportunity(c, s); Inv(c, r) && UsedOne(s, r) && Time(c, s) <= Time(c, r)
  {
    hide Opportunity, IsServiceCurve, ArrivedBefore, PacketsConserved, OrderKept, WindowOk, CursorAt;
    var r := Opportunity(c, s);
    OpportunityUses(c, s);
    OpportunityCursor(c, s);
    OpportunityGood(c, s, Time(c, r));
    CurveStep(s.hist.net, s.hist.served, NetBytes(r.hist));
  }

  lemma OpportunityTime(s: seq<nat>, repeat: bool, k: nat)
    requires ValidSchedule(s) && (repeat || k < |s|)
    requires forall i :: 0 <= i < |s| ==> s[i] < NEVER
    ensures InRange(s, CursorAt(s, repeat, k)) && InRange(s, CursorAt(s, repeat, k + 1))
    ensures TimeOf(s, CursorAt(s, repeat, k)) <= TimeOf(s, CursorAt(s, repeat, k + 1))
  {
    AdvanceFollowsClosedForm(s, repeat, k);
    DeliveryTimeStep(s, repeat, k);
    if repeat || k + 1 < |s| { AdvanceFollowsClosedForm(s, repeat, k + 1); }
  }

  /** The opportunities from the k-th up to the one `u` waits for are due by `now`. */
  ghost predicate UsedUpTo<Q>(c: Setup<Q>, s: Link<Q>, now: nat, u: Link<Q>) {
    && Inv(c, s) && Inv(c, u) && Time(c, s) <= Time(c, u)
    && u.hist.arrivals == s.hist.arrivals && |s.hist.net| <= |u.hist.net|
    && forall j :: |s.hist.net| <= j < |u.hist.net| ==> DeliveryTime(c.schedule, c.repeat, j) <= now
  }

  lemma UsedOneMore<Q(!new)>(c: Setup<Q>, s: Link<Q>, now: nat, u: Link<Q>)
    requires ValidSetup(c) && UsedUpTo(c, s, now, u) && Time(c, u) <= now < NEVER
    ensures UsedUpTo(c, s, now, Opportunity(c, u))
  {
    hide Opportunity, Good, IsServiceCurve;
    OpportunityKeeps(c, u);
    AdvanceFollowsClosedForm(c.schedule, c.repeat, |u.hist.net|);
  }

  lemma {:induction false} RationalizeRule<Q(!new)>(c: Setup<Q>, s: Link<Q>, now: nat, u: Link<Q>)
    requires ValidSetup(c) && now < NEVER && UsedUpTo(c, s, now, u)
    ensures UsedUpTo(c, s, now, Rationalize(c, u, now))
    decreases if u.cursor.finished then 0 else 1, Max(0, now + 1 - u.cursor.base),
              |c.schedule| - u.cursor.next
  {
    hide Opportunity, IsServiceCurve, ArrivedBefore, Conserved, WindowOk, CursorAt;
    if Time(c, u) <= now {
      NextIndex(u.cursor.next, |c.schedule|);
      UsedOneMore(c, s, now, u);
      RationalizeRule(c, s, now, Opportunity(c, u));
    }
  }

  /** `rationalize` keeps the invariant and uses exactly the opportunities due by `now`. */
  lemma RationalizeKeeps<Q(!new)>(c: Setup<Q>, s: Link<Q>, now: nat)
    requires ValidSetup(c) && Inv(c, s) && now < NEVER
    ensures var r := Rationalize(c, s, now);
      && Inv(c, r) && Time(c, s) <= Time(c, r) && r.hist.arrivals == s.hist.arrivals
      && |s.hist.net| <= |r.hist.net|
      && (forall j :: |s.hist.net| <= j && (c.repeat || j < |c.schedule|) ==>
            (j < |r.hist.net| <==> DeliveryTime(c.schedule, c.repeat, j) <= now))
  {
    hide Opportunity, IsServiceCurve, ArrivedBefore, Conserved, WindowOk, CursorAt;
    RationalizeRule(c, s, now, s);
    var r := Rationalize(c, s, now);
    var k := |r.hist.net|;
    forall j | k <= j && (c.repeat || j < |c.schedule|)
      ensures DeliveryTime(c.schedule, c.repeat, j) > now
    {
      AdvanceFollowsClosedForm(c.schedule, c.repeat, k);
      DeliveryTimesNondecreasing(c.schedule, c.repeat, k, j);
    }
  }

  /** Emulating lazily in two calls is emulating once: nothing of the state tells them apart. */
  lemma {:induction false} RationalizeComposes<Q(!new)>(c: Setup<Q>, s: Link<Q>, t1: nat, t2: nat)
    requires ValidSetup(c) && Ready(c, s) && CursorOk(c, s) && t1 <= t2 < NEVER
    ensures Rationalize(c, Rationalize(c, s, t1), t2) == Rationalize(c, s, t2)
    decreases if s.cursor.finished then 0 else 1, Max(0, t2 + 1 - s.cursor.base),
              |c.schedule| - s.cursor.next
  {
    if Time(c, s) <= t1 {
      NextIndex(s.cursor.next, |c.schedule|);
      RationalizeComposes(c, Opportunity(c, s), t1, t2);
    }
  }

  // ----- runs -----

  datatype Event = Offer(packet: Packet) | Tick(now: nat) | Write

  /** A new link: nothing in transit (`packet_in_transit_( "", 0 )`), nothing sent. */
  function Start<Q>(c: Setup<Q>, q: Q): Link<Q> {
    Link(Cursor(0, 0, false), q, NO_PACKET, 0, [], [], UNKNOWN_RATE, History([], [], [], 0, [], [], []))
  }

  lemma StartInv<Q(!new)>(c: Setup<Q>, q: Q)
    requires ValidSetup(c) && c.disc.valid(q) && c.disc.contents(q) == []
    ensures Inv(c, Start(c, q))
  {
    assert CursorAt(c.schedule, c.repeat, 0) == Cursor(0, 0, false) by {
      DivModUnique(0, |c.schedule|, 0, 0);
    }
    assert Selects([], Kept(c, Start(c, q)), []);
  }

  /** An oversized packet makes `read_packet` throw before it changes anything; an empty one,
      or one the discipline's assertions refuse, ends the program, as does a state that violates
      the inner loop's assertions: the run stays where it was. */
  ghost predicate Accepts<Q(!new)>(c: Setup<Q>, s: Link<Q>, e: Event)
    requires ValidSetup(c)
  {
    && Ready(c, s) && CursorOk(c, s)
    && match e
      case Offer(p) => Fits(p) && p.arrival < NEVER && c.disc.admits(Rationalize(c, s, p.arrival).queue, p)
      case Tick(now) => now < NEVER
      case Write => true
  }

  lemma SubseqEnqueue<T>(front: seq<T>, was: seq<T>, p: T, lost: seq<T>, now: seq<T>, all: seq<T>)
    requires Subseq(front + was, all)
    requires was + [p] == lost + now || (now == was && lost == [p])
    ensures Subseq(front + now, all + [p])
  {
    SubseqAppend(front + was, all, [p]);
    assert front + was + [p] == front + (was + [p]);
    if was + [p] == lost + now {
      assert front + lost + now == front + (was + [p]);
      SubseqDelete(front, lost, now);
    } else {
      assert front + now + [p] + [] == front + (was + [p]) && front + now + [] == front + now;
      SubseqDelete(front + now, [p], []);
    }
    SubseqTrans(front + now, front + (was + [p]), all + [p]);
  }

  lemma MultisetEnqueue<T>(
    front: seq<T>, was: seq<T>, p: T, lost: seq<T>, now: seq<T>, all: seq<T>, gone: seq<T>)
    requires multiset(all) == multiset(front + was) + multiset(gone)
    requires multiset(was + [p]) == multiset(lost) + multiset(now)
    ensures multiset(all + [p]) == multiset(front + now) + multiset(gone + lost)
  {
    assert multiset(was + [p]) == multiset(was) + multiset{p};
    assert multiset(all + [p]) == multiset(all) + multiset{p};
    assert multiset(front + was) == multiset(front) + multiset(was);
    assert multiset(front + now) == multiset(front) + multiset(now);
    assert multiset(gone + lost) == multiset(gone) + multiset(lost);
    assert multiset(all + [p]) == multiset(front) + (multiset(was) + multiset{p}) + multiset(gone);
  }

  /** An enqueue keeps the accounts. */
  lemma EnqueueConserves<Q(!new)>(c: Setup<Q>, s: Link<Q>, p: Packet, r: Link<Q>)
    requires Lawful(c.disc) && c.disc.valid(s.queue) && c.disc.admits(s.queue, p) && Conserved(c, s)
    requires r == Enqueued(c, s, p)
    ensures Conserved(c, r)
  {
    hide Lawful, Subseq, Bytes;
    LawfulEnqueue(c.disc, s.queue, p);
    var was, now := Queued(c, s), Queued(c, r);
    var lost, front := Missing(was, p, now), s.hist.written + s.output + InTransit(s);
    MissingBytes(was, p, now);
    assert Kept(c, s) == front + was && Kept(c, r) == front + now;
    assert PacketsConserved(c, r) by {
      MultisetEnqueue(front, was, p, lost, now, s.hist.arrivals, s.hist.discarded);
    }
    assert OrderKept(c, r) by {
      SubseqEnqueue(front, was, p, lost, now, s.hist.arrivals);
    }
    assert BytesConserved(c, r) by {
      BytesAppend(s.hist.arrivals, p);
      BytesConcat(s.hist.discarded, lost);
    }
  }

  lemma EnqueueMembers(was: seq<Packet>, p: Packet, now: seq<Packet>, x: Packet)
    requires (IsSuffix(now, was + [p]) || now == was) && x in now
    ensures x in was || x == p
  {
  }

  lemma EnqueueGood<Q(!new)>(c: Setup<Q>, s: Link<Q>, p: Packet, t: nat)
    requires Lawful(c.disc) && c.disc.admits(s.queue, p) && Good(c, s, t) && Fits(p) && p.arrival < t
    ensures Good(c, Enqueued(c, s, p), t)
  {
    hide Lawful, Conserved, InOrder, Window, Missing, IsSuffix;
    LawfulEnqueue(c.disc, s.queue, p);
    var r := Enqueued(c, s, p);
    EnqueueConserves(c, s, p, r);
    forall x | x in Queued(c, r) ensures Fits(x) && x.arrival < t {
      EnqueueMembers(Queued(c, s), p, Queued(c, r), x);
    }
  }

  lemma ArriveKeeps<Q(!new)>(c: Setup<Q>, s: Link<Q>, p: Packet)
    requires ValidSetup(c) && Inv(c, s) && Accepts(c, s, Offer(p))
    ensures Inv(c, Arrive(c, s, p))
  {
    hide IsServiceCurve, ArrivedBefore, Conserved, WindowOk, CursorAt;
    RationalizeKeeps(c, s, p.arrival);
    var r := Rationalize(c, s, p.arrival);
    EnqueueGood(c, r, p, Time(c, r));
  }

  /** `missing_packets` and `missing_bytes` count exactly the packets an enqueue lost. */
  lemma MissingBytes(was: seq<Packet>, p: Packet, now: seq<Packet>)
    requires IsSuffix(now, was + [p]) || now == was
    ensures multiset(was + [p]) == multiset(Missing(was, p, now)) + multiset(now)
    ensures |was| + 1 - |now| == |Missing(was, p, now)|
    ensures Bytes(was) + p.size - Bytes(now) == Bytes(Missing(was, p, now))
  {
    hide Bytes;
    BytesOne(p);
    BytesAppend(was, p);
    if IsSuffix(now, was + [p]) {
      var lost := Missing(was, p, now);
      assert was + [p] == lost + now;
      BytesConcat(lost, now);
    }
  }

  ghost function Step<Q(!new)>(c: Setup<Q>, s: Link<Q>, e: Event): Link<Q>
    requires ValidSetup(c)
  {
    if !Accepts(c, s, e) then s
    else
      match e
      case Offer(p) => Arrive(c, s, p)
      case Tick(now) => Rationalize(c, s, now)
      case Write => Flush(s)
  }

  lemma StepKeeps<Q(!new)>(c: Setup<Q>, s: Link<Q>, e: Event)
    requires ValidSetup(c) && Inv(c, s)
    ensures Inv(c, Step(c, s, e))
  {
    hide Inv, ValidSetup, Rationalize, Arrive;
    if Accepts(c, s, e) {
      match e
      case Offer(p) => ArriveKeeps(c, s, p);
      case Tick(now) => RationalizeKeeps(c, s, now);
      case Write => FlushKeeps(c, s);
    }
  }

  lemma FlushKeeps<Q>(c: Setup<Q>, s: Link<Q>)
    requires Inv(c, s)
    ensures Inv(c, Flush(s))
  {
    hide Conserved, WindowOk, IsServiceCurve, CursorAt;
    FlushConserves(c, s);
    FlushWindow(s, Time(c, s));
  }

  lemma FlushConserves<Q>(c: Setup<Q>, s: Link<Q>)
    requires Conserved(c, s)
    ensures Conserved(c, Flush(s))
  {
    hide Subseq, Bytes, Kept;
    FlushedIsKept(c, s);
  }

  lemma FlushedIsKept<Q>(c: Setup<Q>, s: Link<Q>)
    ensures Kept(c, Flush(s)) == Kept(c, s)
  {
    assert s.hist.written + s.output + [] == s.hist.written + s.output;
  }

  lemma FlushWindow<Q>(s: Link<Q>, t: nat)
    requires WindowOk(s, t)
    ensures WindowOk(Flush(s), t)
  {
    hide Window, LastRate, InOrder, LeftLast;
    assert s.hist.written + s.output + [] == s.hist.written + s.output;
  }

  ghost function Run<Q(!new)>(c: Setup<Q>, s: Link<Q>, es: seq<Event>): Link<Q>
    requires ValidSetup(c)
    decreases |es|
  {
    if es == [] then s else Run(c, Step(c, s, es[0]), es[1..])
  }

  /** The state after any events on a new link. */
  ghost function From<Q(!new)>(c: Setup<Q>, q: Q, es: seq<Event>): Link<Q>
    requires ValidSetup(c)
  {
    Run(c, Start(c, q), es)
  }

  lemma {:induction false} RunKeeps<Q(!new)>(c: Setup<Q>, s: Link<Q>, es: seq<Event>)
    requires ValidSetup(c) && Inv(c, s)
    ensures Inv(c, Run(c, s, es))
    decreases |es|
  {
    hide Inv, ValidSetup, Step;
    if es != [] {
      StepKeeps(c, s, es[0]);
      RunKeeps(c, Step(c, s, es[0]), es[1..]);
    }
  }

  /** Every reachable state of every link satisfies the invariant. */
  lemma EveryRunKeepsInv<Q(!new)>(c: Setup<Q>, q: Q, es: seq<Event>)
    requires ValidSetup(c) && c.disc.valid(q) && c.disc.contents(q) == []
    ensures Inv(c, From(c, q, es))
  {
    hide Inv, ValidSetup;
    StartInv(c, q);
    RunKeeps(c, Start(c, q), es);
  }

  // ----- theorems over every run -----

  /** Exact service curve, for every discipline: the bytes sent are the min-plus formula over
      the bytes that had arrived and not been thrown away at each opportunity. */
  lemma ServiceCurve<Q(!new)>(c: Setup<Q>, q: Q, es: seq<Event>, v: int)
    requires ValidSetup(c) && c.disc.valid(q) && c.disc.contents(q) == []
    ensures var s := From(c, q, es);
      IsServiceCurve(s.hist.net, v) <==> v == s.hist.served
  {
    hide From, Good;
    EveryRunKeepsInv(c, q, es);
    var s := From(c, q, es);
    if IsServiceCurve(s.hist.net, v) { CurveUnique(s.hist.net, v, s.hist.served); }
  }

  /** Nothing has been lost, and each opportunity saw all bytes that had arrived. */
  ghost predicate NothingLost<Q>(s: Link<Q>) {
    s.hist.discarded == [] && s.hist.net == s.hist.offered
  }

  lemma {:induction false} LosslessRun<Q(!new)>(c: Setup<Q>, s: Link<Q>, es: seq<Event>)
    requires ValidSetup(c) && Inv(c, s) && Lossless(c.disc) && NothingLost(s)
    ensures NothingLost(Run(c, s, es))
    decreases |es|
  {
    if es != [] {
      hide Inv, Step;
      StepKeeps(c, s, es[0]);
      LosslessStep(c, s, es[0]);
      LosslessRun(c, Step(c, s, es[0]), es[1..]);
    }
  }

  lemma LosslessStep<Q(!new)>(c: Setup<Q>, s: Link<Q>, e: Event)
    requires ValidSetup(c) && Inv(c, s) && Lossless(c.disc) && NothingLost(s)
    ensures NothingLost(Step(c, s, e))
  {
    hide IsServiceCurve, ArrivedBefore, Conserved, WindowOk, Lawful;
    if Accepts(c, s, e) {
      match e
      case Offer(p) => LosslessRationalize(c, s, p.arrival);
      case Tick(now) => LosslessRationalize(c, s, now);
      case Write =>
    }
  }

  lemma {:induction false} LosslessRationalize<Q(!new)>(c: Setup<Q>, s: Link<Q>, now: nat)
    requires ValidSetup(c) && Ready(c, s) && CursorOk(c, s) && now < NEVER
    requires Lossless(c.disc) && NothingLost(s)
    ensures NothingLost(Rationalize(c, s, now))
    decreases if s.cursor.finished then 0 else 1, Max(0, now + 1 - s.cursor.base),
              |c.schedule| - s.cursor.next
  {
    hide Lossless, ValidSetup, Opportunity, Ready, NothingLost;
    if Time(c, s) <= now {
      NextIndex(s.cursor.next, |c.schedule|);
      LastIsPositive(c, s);
      LosslessOpportunity(c, s);
      LosslessRationalize(c, Opportunity(c, s), now);
    }
  }

  /** Where dequeues throw nothing away, the inner loop discards nothing. */
  lemma DrainKeepsAll<Q(!new)>(c: Setup<Q>, s: Link<Q>, b: nat, t: nat)
    requires Lawful(c.disc) && Ready(c, s) && KeepsOnDequeue(c.disc)
    ensures var r := Drain(c, s, b, t);
      r.hist.discarded == s.hist.discarded && r.hist.offered == s.hist.offered
  {
    hide Lawful, Ready, Drain, Rate, Record;
    var lost, offered := s.hist.discarded, s.hist.offered;
    var G := u => Ready(c, u) && u.hist.discarded == lost && u.hist.offered == offered;
    forall u | G(u) && !Exhausted(c, u) ensures G(Load(c, u)) {
      LoadReady(c, u);
      LoadKeepsAll(c, u);
    }
    forall u, n: nat | G(u) && 0 < n <= u.left ensures G(Send(u, n, t)) { SendReady(c, u, n, t); }
    forall u | G(u) ensures G(Idle(u)) { IdleReady(c, u); }
    DrainRule(c, s, b, t, G);
    assert G(Drain(c, s, b, t));
  }

  lemma LoadKeepsAll<Q(!new)>(c: Setup<Q>, s: Link<Q>)
    requires Ready(c, s) && KeepsOnDequeue(c.disc) && !Exhausted(c, s)
    ensures Load(c, s).hist == s.hist
  {
    if s.left == 0 {
      var r := c.disc.dequeue(s.queue);
      assert s.hist.discarded + r.before + r.after == s.hist.discarded;
    }
  }

  lemma IdleReady<Q>(c: Setup<Q>, s: Link<Q>)
    requires Ready(c, s)
    ensures Ready(c, Idle(s))
  {
  }

  lemma OpportunityKeepsAll<Q(!new)>(c: Setup<Q>, s: Link<Q>)
    requires ValidSetup(c) && Ready(c, s) && CursorOk(c, s) && KeepsOnDequeue(c.disc)
    ensures var r := Opportunity(c, s);
      && r.hist.discarded == s.hist.discarded && r.hist.arrivals == s.hist.arrivals
      && r.hist.offered == s.hist.offered + [Bytes(s.hist.arrivals)]
      && r.hist.net == s.hist.net + [NetBytes(r.hist)]
  {
    hide Lawful, Drain, KeepsOnDequeue, Ready;
    var s0 := s.(cursor := Schedules.Advance(c.schedule, c.repeat, s.cursor));
    ReadyIgnoresCursor(c, s, s0.cursor);
    DrainKeepsAll(c, s0, PACKET_SIZE, Time(c, s));
    DrainSpends(c, s0, PACKET_SIZE, Time(c, s));
  }

  /** Every cycle takes time, so emulating up to a given time ends. */
  lemma LastIsPositive<Q(!new)>(c: Setup<Q>, s: Link<Q>)
    requires ValidSetup(c) && CursorOk(c, s)
    ensures c.schedule[|c.schedule| - 1] > 0
    ensures s.cursor.finished || c.schedule[s.cursor.next] + s.cursor.base == Time(c, s)
  {
  }

  lemma LosslessOpportunity<Q(!new)>(c: Setup<Q>, s: Link<Q>)
    requires ValidSetup(c) && Ready(c, s) && CursorOk(c, s) && Lossless(c.disc) && NothingLost(s)
    ensures NothingLost(Opportunity(c, s))
  {
    hide Opportunity, KeepsOnDequeue, Lawful, Ready;
    OpportunityKeepsAll(c, s);
  }

  /** Where dequeues throw nothing away, an opportunity sends 1504 bytes or the whole backlog. */
  lemma OpportunitySendsBacklog<Q(!new)>(c: Setup<Q>, s: Link<Q>)
    requires ValidSetup(c) && Inv(c, s) && KeepsOnDequeue(c.disc) && !s.cursor.finished
    ensures Opportunity(c, s).hist.served == s.hist.served + Min(PACKET_SIZE, Backlog(c, s))
  {
    hide Opportunity, KeepsOnDequeue, IsServiceCurve, Ready, ArrivedBefore, PacketsConserved, OrderKept, WindowOk,
         Lawful, CursorAt;
    OpportunityKeeps(c, s);
    OpportunityKeepsAll(c, s);
  }

  /** Work conservation: on every run of every discipline whose dequeues throw nothing away, also
      one that loses packets on arrival, each opportunity sends min(1504, backlog). */
  lemma WorkConserving<Q(!new)>(c: Setup<Q>, q: Q, es: seq<Event>)
    requires ValidSetup(c) && KeepsOnDequeue(c.disc) && c.disc.valid(q) && c.disc.contents(q) == []
    ensures var s := From(c, q, es);
      && Ready(c, s) && CursorOk(c, s)
      && (!s.cursor.finished ==>
            Opportunity(c, s).hist.served == s.hist.served + Min(PACKET_SIZE, Backlog(c, s)))
  {
    hide From, Opportunity, IsServiceCurve, ArrivedBefore, Conserved, WindowOk, KeepsOnDequeue, Lawful, CursorAt;
    EveryRunKeepsInv(c, q, es);
    var s := From(c, q, es);
    if !s.cursor.finished { OpportunitySendsBacklog(c, s); }
  }

  lemma LosslessFrom<Q(!new)>(c: Setup<Q>, q: Q, es: seq<Event>)
    requires ValidSetup(c) && Lossless(c.disc) && c.disc.valid(q) && c.disc.contents(q) == []
    ensures NothingLost(From(c, q, es))
  {
    hide Inv, Lossless, ValidSetup;
    StartInv(c, q);
    LosslessRun(c, Start(c, q), es);
  }

  /** Without loss, exactly the arrived bytes are sent or still to be sent, and the service curve
      is over all bytes offered. */
  lemma LosslessService<Q(!new)>(c: Setup<Q>, q: Q, es: seq<Event>)
    requires ValidSetup(c) && Lossless(c.disc) && c.disc.valid(q) && c.disc.contents(q) == []
    ensures var s := From(c, q, es);
      && s.hist.discarded == [] && Bytes(s.hist.arrivals) == s.hist.served + Backlog(c, s)
      && IsServiceCurve(s.hist.offered, s.hist.served)
  {
    hide From, IsServiceCurve, ArrivedBefore, PacketsConserved, OrderKept, WindowOk, Lossless, Lawful, CursorAt;
    LosslessFrom(c, q, es);
    EveryRunKeepsInv(c, q, es);
  }

  /** Conservation, order, causality and the rate window, on every run under every clock. */
  lemma RunAccounts<Q(!new)>(c: Setup<Q>, q: Q, es: seq<Event>)
    requires ValidSetup(c) && c.disc.valid(q) && c.disc.contents(q) == []
    ensures var s := From(c, q, es);
      && multiset(s.hist.arrivals) == multiset(Kept(c, s)) + multiset(s.hist.discarded)
      && Subseq(Kept(c, s), s.hist.arrivals)
      && CursorOk(c, s) && (forall p :: p in Queued(c, s) + InTransit(s) ==> p.arrival < Time(c, s))
      && s.trace == Window(s.hist.busy)
      && s.cursor == CursorAt(c.schedule, c.repeat, |s.hist.net|)
  {
    hide From, Subseq, Window, CursorAt, LastRate, LeftLast;
    EveryRunKeepsInv(c, q, es);
  }

  /** The rate of the link, on every run: it means what it should for the departures of the busy
      period, which are those of the last packets sent. */
  lemma RunRate<Q(!new)>(c: Setup<Q>, q: Q, es: seq<Event>)
    requires ValidSetup(c) && c.disc.valid(q) && c.disc.contents(q) == []
    ensures var s := From(c, q, es);
      RateMeans(s.hist.busy, s.rate) && LeftLast(s.hist.busy, s.hist.written + s.output)
  {
    hide From, Subseq, Window, CursorAt, LastRate, LeftLast, RateMeans;
    EveryRunKeepsInv(c, q, es);
    LastRateMeans(From(c, q, es).hist.busy);
  }

  /** Each opportunity that is used up continues the busy period; one that is not ends it. */
  lemma OpportunityBusy<Q(!new)>(c: Setup<Q>, s: Link<Q>)
    requires ValidSetup(c) && Ready(c, s) && InRange(c.schedule, s.cursor)
    ensures var r := Opportunity(c, s);
      if r.hist.served == s.hist.served + PACKET_SIZE then s.hist.busy <= r.hist.busy
      else r.hist.served < s.hist.served + PACKET_SIZE && IsIdle(r)
  {
    hide Drain, Lawful, Ready, Schedules.Advance;
    var s0 := s.(cursor := Schedules.Advance(c.schedule, c.repeat, s.cursor));
    ReadyIgnoresCursor(c, s, s0.cursor);
    DrainSpends(c, s0, PACKET_SIZE, Time(c, s));
  }
}

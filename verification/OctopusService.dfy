/** From marks to packets: what the dequeues of the Octopus router deliver and throw away. */
module OctopusServices {
  import opened Packets
  import opened DroppingQueues
  import opened Octopus
  import opened OctopusRuns

  /** Departure i was marked and another packet was queued behind it. */
  predicate LostAt(h: Past, i: nat)
    requires i < |h.marks| && |h.depth| == |h.marks|
  {
    h.marks[i] && i + 1 < h.depth[i]
  }

  /** Those of the first n departures that were marked with another packet behind them, or, if
      `lost` is false, all others. */
  function Sorted(h: Past, n: nat, lost: bool): seq<Packet>
    requires n <= |h.marks| <= |h.accepted| && |h.depth| == |h.marks|
  {
    if n == 0 then []
    else Sorted(h, n - 1, lost) + if LostAt(h, n - 1) == lost then [h.accepted[n - 1]] else []
  }

  /** h' has the past h and possibly more departures. */
  ghost predicate Continues(h: Past, h': Past) {
    && |h.marks| <= |h'.marks| <= |h'.accepted| && |h.depth| == |h.marks| && |h'.depth| == |h'.marks|
    && h'.marks[..|h.marks|] == h.marks && h'.depth[..|h.marks|] == h.depth && h.accepted <= h'.accepted
    && h'.open == h.open && h'.seen == h.seen
  }

  lemma {:induction false} SortedContinues(h: Past, h': Past, n: nat, lost: bool)
    requires Continues(h, h') && n <= |h.marks| <= |h.accepted|
    ensures Sorted(h', n, lost) == Sorted(h, n, lost)
  {
    if n > 0 {
      SortedContinues(h, h', n - 1, lost);
      assert h'.marks[..|h.marks|][n - 1] == h.marks[n - 1] && h'.depth[..|h.marks|][n - 1] == h.depth[n - 1];
    }
  }

  /** n departures in a row, with consecutive readings. */
  function LeaveMany(r: Run, env: nat -> Reading, i: nat, n: nat): Run
    decreases n
  {
    if n == 0 || r.state.queue == [] then r
    else LeaveMany(Leave(r, env(i).now, env(i).share), env, i + 1, n - 1)
  }

  /** What one dequeue threw away and returned is what its departures sort into. */
  ghost predicate Accounts(h: Past, h': Past, discarded: seq<Packet>, packet: Packet)
    requires |h.marks| <= |h.accepted| && |h.depth| == |h.marks| && Continues(h, h')
  {
    && Sorted(h', |h'.marks|, true) == Sorted(h, |h.marks|, true) + discarded
    && Sorted(h', |h'.marks|, false) == Sorted(h, |h.marks|, false) + [packet]
  }

  lemma LeaveSorts(l: Limits, r: Run, now: nat, share: nat)
    requires Inv(l, r) && r.state.queue != []
    ensures !FrontAborts(r.state)
    ensures r.state.queue[0].header.priority < |Row(r.state, r.state.queue[0].header.port, 0)|
    ensures var h, f, g := r.past, Leaving(r.state, now, share), Leave(r, now, share).past;
      && |h.marks| <= |h.accepted| && Continues(h, g) && Leave(r, now, share).state == f.rest
      && g.accepted == h.accepted
      && (if GoesOn(f)
          then Sorted(g, |g.marks|, true) == Sorted(h, |h.marks|, true) + [f.packet]
            && Sorted(g, |g.marks|, false) == Sorted(h, |h.marks|, false)
          else Accounts(h, g, [], f.packet))
  {
    hide Decides, CountDeparture, LastMarked, Whole, TableOk, IsValid, RegisterOk, ArrivalsOk, RuleAt;
    FrontKeeps(l, r.state, now, share);
    var h, d := r.past, |r.past.marks|;
    var g := Leave(r, now, share).past;
    assert g.marks[..d] == h.marks && g.depth[..d] == h.depth;
    SortedContinues(h, g, d, true);
    SortedContinues(h, g, d, false);
    assert h.accepted[d] == r.state.queue[0];
  }

  lemma ContinuesOn(h: Past, m: Past, g: Past)
    requires Continues(h, m) && Continues(m, g)
    ensures Continues(h, g)
  {
    assert g.marks[..|h.marks|] == g.marks[..|m.marks|][..|h.marks|];
    assert g.depth[..|h.marks|] == g.depth[..|m.marks|][..|h.marks|];
  }

  /** What a dequeue that took n readings from the i-th on did to a run. */
  ghost predicate Departs(l: Limits, r: Run, g: Run, o: Outcome, i: nat) {
    && Inv(l, g) && g.state == o.rest && |r.past.marks| <= |r.past.accepted| && Continues(r.past, g.past)
    && |g.past.marks| == |r.past.marks| + o.taken - i && Accounts(r.past, g.past, o.discarded, o.packet)
    && g.past.accepted == r.past.accepted
  }

  /** The head left for m and was thrown away. */
  ghost predicate Loses(l: Limits, r: Run, m: Run, p: Packet) {
    && Inv(l, m) && |r.past.marks| <= |r.past.accepted| && Continues(r.past, m.past)
    && |m.past.marks| == |r.past.marks| + 1 && m.past.accepted == r.past.accepted
    && Sorted(m.past, |m.past.marks|, true) == Sorted(r.past, |r.past.marks|, true) + [p]
    && Sorted(m.past, |m.past.marks|, false) == Sorted(r.past, |r.past.marks|, false)
  }

  /** One departure of a dequeue: the head is thrown away, or it is the packet returned. */
  lemma LeaveDeparts(l: Limits, r: Run, now: nat, share: nat, i: nat)
    requires Inv(l, r) && r.state.queue != []
    ensures !FrontAborts(r.state)
    ensures r.state.queue[0].header.priority < |Row(r.state, r.state.queue[0].header.port, 0)|
    ensures var f, m := Leaving(r.state, now, share), Leave(r, now, share);
      && m.state == f.rest && Inv(l, m) && |m.state.queue| < |r.state.queue|
      && if GoesOn(f) then Loses(l, r, m, f.packet)
         else Departs(l, r, m, Outcome([], f.packet, f.marked, f.rest, i + 1), i)
  {
    hide Inv, Sorted, Continues, Leaving, Leave;
    LeaveSorts(l, r, now, share);
    LeaveKeeps(l, r, now, share);
    LeaveCounts(l, r, now, share);
  }

  lemma DepartsOn(l: Limits, r: Run, m: Run, g: Run, o: Outcome, p: Packet, i: nat)
    requires Loses(l, r, m, p) && Departs(l, m, g, o, i + 1)
    ensures Departs(l, r, g, o.(discarded := [p] + o.discarded), i)
  {
    hide Inv, Sorted;
    ContinuesOn(r.past, m.past, g.past);
    var lost := Sorted(r.past, |r.past.marks|, true);
    assert lost + ([p] + o.discarded) == lost + [p] + o.discarded;
  }

  /** A dequeue is a row of departures of the run: it leaves their state, throws away exactly the
      marked packets that had another one behind them, and returns the last to leave. */
  lemma {:induction false} DequeueIsDepartures(l: Limits, r: Run, env: nat -> Reading, i: nat)
    requires Inv(l, r) && r.state.queue != []
    ensures IsValid(l, r.state)
    ensures var o := Dequeuing(l, r.state, env, i);
      o.taken > i && Departs(l, r, LeaveMany(r, env, i, o.taken - i), o, i)
    decreases |r.state.queue|
  {
    hide Leave, Leaving, IsValid, Inv, Departs, Loses, Dequeuing, LeaveMany, FrontAborts, Row;
    StatesAreValid(l, r);
    DequeuingUnfolds(l, r.state, env, i);
    LeaveDeparts(l, r, env(i).now, env(i).share, i);
    var f, m := Leaving(r.state, env(i).now, env(i).share), Leave(r, env(i).now, env(i).share);
    if GoesOn(f) {
      DequeueIsDepartures(l, m, env, i + 1);
      var o := Dequeuing(l, m.state, env, i + 1);
      LeaveManyUnfolds(r, env, i, o.taken - i);
      DepartsOn(l, r, m, LeaveMany(m, env, i + 1, o.taken - (i + 1)), o, f.packet, i);
    } else {
      LeaveManyUnfolds(r, env, i, 1);
      LeaveManyUnfolds(m, env, i + 1, 0);
    }
  }

  lemma LeaveManyUnfolds(r: Run, env: nat -> Reading, i: nat, n: nat)
    requires r.state.queue != [] || n == 0
    ensures LeaveMany(r, env, i, n) ==
      if n == 0 then r else LeaveMany(Leave(r, env(i).now, env(i).share), env, i + 1, n - 1)
  {
  }

  lemma LeaveCounts(l: Limits, r: Run, now: nat, share: nat)
    requires Inv(l, r) && r.state.queue != []
    ensures |Leave(r, now, share).past.marks| == |r.past.marks| + 1
    ensures |Leave(r, now, share).state.queue| < |r.state.queue|
  {
    hide Decides, CountDeparture, LastMarked, Whole, TableOk, IsValid, RegisterOk, ArrivalsOk, RuleAt;
    FrontKeeps(l, r.state, now, share);
  }

  // ----- every run of enqueues and dequeues -----

  datatype Call = Enqueue(packet: Packet) | Dequeue

  /** The queue with its past, the readings taken, the packets thrown away and returned by dequeues
      so far, the packets offered by enqueues and those of them refused, and everything lost, in
      the order in which it was lost. */
  datatype Service = Service(
    run: Run, taken: nat, discarded: seq<Packet>, returned: seq<Packet>,
    offered: seq<Packet>, refused: seq<Packet>, lost: seq<Packet>)

  ghost function Serve(l: Limits, env: nat -> Reading, v: Service, call: Call): Service {
    match call
    case Enqueue(p) =>
      if !Legal(v.run.past, p) then v
      else
        var no := if Accepts(l, v.run.state, p) then [] else [p];
        v.(run := Offer(l, v.run, p), offered := v.offered + [p], refused := v.refused + no, lost := v.lost + no)
    case Dequeue =>
      if v.run.state.queue == [] || !IsValid(l, v.run.state) then v
      else
        var o := Dequeuing(l, v.run.state, env, v.taken);
        var n := if o.taken > v.taken then o.taken - v.taken else 0;
        v.(run := Run(o.rest, LeaveMany(v.run, env, v.taken, n).past), taken := o.taken,
           discarded := v.discarded + o.discarded, returned := v.returned + [o.packet],
           lost := v.lost + o.discarded)
  }

  ghost function Services(l: Limits, env: nat -> Reading, cs: seq<Call>): Service {
    if cs == [] then Service(Initial(), 0, [], [], [], [], [])
    else Serve(l, env, Services(l, env, cs[..|cs| - 1]), cs[|cs| - 1])
  }

  ghost predicate ServiceOk(l: Limits, v: Service) {
    var h := v.run.past;
    && Inv(l, v.run) && |h.marks| <= |h.accepted| && |h.depth| == |h.marks|
    && v.discarded == Sorted(h, |h.marks|, true) && v.returned == Sorted(h, |h.marks|, false)
  }

  lemma ServeKeeps(l: Limits, env: nat -> Reading, v: Service, call: Call)
    requires ServiceOk(l, v)
    ensures ServiceOk(l, Serve(l, env, v, call))
  {
    hide Inv, Offer, Legal, Dequeuing, Sorted, LeaveMany;
    match call
    case Enqueue(p) =>
      if Legal(v.run.past, p) {
        OfferKeeps(l, v.run, p);
        OfferSorts(l, v.run, p, true);
        OfferSorts(l, v.run, p, false);
      }
    case Dequeue =>
      if v.run.state.queue != [] { DequeueIsDepartures(l, v.run, env, v.taken); }
  }

  /** An arrival leaves the departed as they are. */
  lemma OfferSorts(l: Limits, r: Run, p: Packet, lost: bool)
    requires |r.past.marks| <= |r.past.accepted| && |r.past.depth| == |r.past.marks|
    ensures var h, g := r.past, Offer(l, r, p).past;
      && g.marks == h.marks && g.depth == h.depth && |h.accepted| <= |g.accepted|
      && Sorted(g, |g.marks|, lost) == Sorted(h, |h.marks|, lost)
  {
    var h, g := r.past, Offer(l, r, p).past;
    var same := g.(open := h.open, seen := h.seen);
    assert h.marks[..|h.marks|] == h.marks && h.depth[..|h.marks|] == h.depth;
    SortedContinues(h, same, |h.marks|, lost);
    SortedIgnoresPorts(same, g, |h.marks|, lost);
  }

  lemma {:induction false} SortedIgnoresPorts(h: Past, g: Past, n: nat, lost: bool)
    requires h.accepted == g.accepted && h.marks == g.marks && h.depth == g.depth
    requires n <= |h.marks| <= |h.accepted| && |h.depth| == |h.marks|
    ensures Sorted(h, n, lost) == Sorted(g, n, lost)
  {
    if n > 0 { SortedIgnoresPorts(h, g, n - 1, lost); }
  }

  lemma InitialService(l: Limits)
    ensures ServiceOk(l, Service(Initial(), 0, [], [], [], [], []))
  {
    InitialInv(l);
  }

  lemma {:induction false} ServicesKeepOk(l: Limits, env: nat -> Reading, cs: seq<Call>)
    ensures ServiceOk(l, Services(l, env, cs))
  {
    hide ServiceOk, Serve;
    if cs == [] {
      InitialService(l);
    } else {
      ServicesKeepOk(l, env, cs[..|cs| - 1]);
      ServeKeeps(l, env, Services(l, env, cs[..|cs| - 1]), cs[|cs| - 1]);
    }
  }

  /** The packets offered are those accepted and those refused, and the packets lost are those
      refused and those thrown away. */
  ghost predicate Balanced(v: Service) {
    && multiset(v.offered) == multiset(v.run.past.accepted) + multiset(v.refused)
    && multiset(v.lost) == multiset(v.discarded) + multiset(v.refused)
  }

  lemma OfferAccepts(l: Limits, r: Run, p: Packet)
    requires Inv(l, r) && Legal(r.past, p)
    ensures Offer(l, r, p).past.accepted == r.past.accepted + if Accepts(l, r.state, p) then [p] else []
  {
    hide Inv, Admits, Enqueued, Accepts, Row, Legal;
    LegalIsAdmitted(l, r, p);
    StatesAreValid(l, r);
    EnqueueKeeps(l, r.state, p);
  }

  lemma Shares<T>(all: seq<T>, more: seq<T>, a: seq<T>, x: seq<T>, b: seq<T>, y: seq<T>)
    requires multiset(all) == multiset(a) + multiset(b) && multiset(more) == multiset(x) + multiset(y)
    ensures multiset(all + more) == multiset(a + x) + multiset(b + y)
  {
    assert multiset(all + more) == multiset(all) + multiset(more);
    assert multiset(a + x) == multiset(a) + multiset(x) && multiset(b + y) == multiset(b) + multiset(y);
  }

  lemma ServeBalances(l: Limits, env: nat -> Reading, v: Service, call: Call)
    requires ServiceOk(l, v) && Balanced(v)
    ensures Balanced(Serve(l, env, v, call))
  {
    hide Inv, Offer, Legal, Dequeuing, Sorted, LeaveMany, Accepts;
    match call
    case Enqueue(p) =>
      if Legal(v.run.past, p) {
        OfferAccepts(l, v.run, p);
        var yes, no := if Accepts(l, v.run.state, p) then [p] else [], if Accepts(l, v.run.state, p) then [] else [p];
        Shares(v.offered, [p], v.run.past.accepted, yes, v.refused, no);
        Shares(v.lost, no, v.discarded, [], v.refused, no);
        assert v.discarded + [] == v.discarded;
      }
    case Dequeue =>
      if v.run.state.queue != [] && IsValid(l, v.run.state) {
        DequeueIsDepartures(l, v.run, env, v.taken);
        var o := Dequeuing(l, v.run.state, env, v.taken);
        Shares(v.lost, o.discarded, v.discarded, o.discarded, v.refused, []);
        assert v.refused + [] == v.refused;
      }
  }

  /** On every run of enqueues and dequeues the books balance. */
  lemma {:induction false} ServicesBalance(l: Limits, env: nat -> Reading, cs: seq<Call>)
    ensures Balanced(Services(l, env, cs))
  {
    hide ServiceOk, Serve;
    if cs != [] {
      ServicesKeepOk(l, env, cs[..|cs| - 1]);
      ServicesBalance(l, env, cs[..|cs| - 1]);
      ServeBalances(l, env, Services(l, env, cs[..|cs| - 1]), cs[|cs| - 1]);
    }
  }

  /** Taking p would exceed a limit. */
  predicate Exceeds(l: Limits, q: seq<Packet>, p: Packet) {
    (l.bytes != 0 && Bytes(q) + p.size > l.bytes) || (l.packets != 0 && |q| + 1 > l.packets)
  }

  /** After every run of calls, an arrival that obeys the sending rule is refused exactly when it
      would exceed a limit, and else is accepted and queued last. */
  lemma RefusedIff(l: Limits, env: nat -> Reading, cs: seq<Call>, p: Packet)
    ensures var v, w := Services(l, env, cs), Services(l, env, cs + [Enqueue(p)]);
      Legal(v.run.past, p) ==>
        if Exceeds(l, v.run.state.queue, p)
        then w.refused == v.refused + [p] && w.run.past.accepted == v.run.past.accepted && w.run.state == v.run.state
        else && w.refused == v.refused && w.run.past.accepted == v.run.past.accepted + [p]
             && w.run.state.queue == v.run.state.queue + [p]
  {
    hide Inv, Legal, Admits, Enqueued, Accepts, Row, EnqueueAborts, IsValid;
    var v := Services(l, env, cs);
    assert (cs + [Enqueue(p)])[..|cs|] == cs;
    ServicesKeepOk(l, env, cs);
    if Legal(v.run.past, p) {
      OfferAccepts(l, v.run, p);
      LegalIsAdmitted(l, v.run, p);
      StatesAreValid(l, v.run);
      EnqueueKeeps(l, v.run.state, p);
      AcceptsIff(l, v.run.state, p);
    }
  }

  /** On every run of enqueues and dequeues the packets thrown away are exactly the departed ones
      that were marked with another packet queued behind them, in order, and the packets returned
      are exactly the others. */
  lemma DiscardedAreTheMarked(l: Limits, env: nat -> Reading, cs: seq<Call>)
    ensures var v := Services(l, env, cs);
      && |v.run.past.marks| <= |v.run.past.accepted| && |v.run.past.depth| == |v.run.past.marks|
      && v.discarded == Sorted(v.run.past, |v.run.past.marks|, true)
      && v.returned == Sorted(v.run.past, |v.run.past.marks|, false)
  {
    hide Services, Sorted, Inv;
    ServicesKeepOk(l, env, cs);
  }

  /** Messages are dropped as a whole: once a packet of a message numbered other than 0 is thrown
      away, every departed packet of that message is thrown away too, except one that was marked
      but left the queue empty. */
  ghost predicate DropsWholeMessages(h: Past) {
    && |h.marks| <= |h.accepted| && |h.depth| == |h.marks|
    && forall i, j :: 0 <= i < |h.marks| && 0 <= j < |h.marks| && Same(h.accepted[i], h.accepted[j]) ==>
         h.accepted[i].header.msgNo != 0 && LostAt(h, i) ==> h.marks[j] && (LostAt(h, j) || h.depth[j] == j + 1)
  }

  /** Every run of enqueues and dequeues drops whole messages. */
  lemma MessagesShareFate(l: Limits, env: nat -> Reading, cs: seq<Call>)
    ensures DropsWholeMessages(Services(l, env, cs).run.past)
  {
    hide Services, Sorted, ArrivalsOk, Whole, LastMarked;
    ServicesKeepOk(l, env, cs);
    var h := Services(l, env, cs).run.past;
    RuleIsAllOrNothing(h);
    forall i, j | 0 <= i < |h.marks| && 0 <= j < |h.marks| && Same(h.accepted[i], h.accepted[j])
      && h.accepted[i].header.msgNo != 0 && LostAt(h, i)
      ensures h.marks[j] && (LostAt(h, j) || h.depth[j] == j + 1)
    {
      assert RuleAt(h, j) && Same(h.accepted[j], h.accepted[i]);
    }
  }
}

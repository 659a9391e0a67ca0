/** `CODELPacketQueue`: drop decisions at dequeue time, after sustained delay only. */
module CoDel {
  import opened Packets
  import opened Disciplines
  import opened DroppingQueues

  /** The parameters; `law(t, count)` stands for the square-root control law. */
  datatype Tuning = Tuning(limits: Limits, target: nat, interval: nat, law: (nat, nat) -> nat)

  /** What one `dodequeue` saw, what it decided, and whether its packet was thrown away. */
  datatype Observation = Observation(now: nat, sojourn: nat, left: nat, ok: bool, discarded: bool)

  datatype State = State(
    queue: seq<Packet>, firstAbove: nat, dropNext: nat, count: nat, lastCount: nat, dropping: bool,
    seen: seq<Observation>)

  ghost predicate ValidTuning(c: Tuning) {
    c.target > 0 && c.interval > 0
  }

  /** The unsigned difference of two clock readings. */
  function Elapsed(now: nat, since: nat): nat {
    if now >= since then now - since else (now - since) % U64
  }

  function Inc32(n: nat): nat {
    (n + 1) % U32
  }

  datatype Popped = Popped(packet: Packet, ok: bool, rest: State)

  /** `dodequeue`; `discard` tells whether the caller will throw the packet away. */
  function Popping(c: Tuning, s: State, now: nat, discard: bool): Popped
    requires s.queue != []
  {
    var p, q := s.queue[0], s.queue[1..];
    var sojourn := Elapsed(now, p.arrival);
    var above := q != [] && sojourn >= c.target && Bytes(q) > PACKET_SIZE;
    var ok := above && s.firstAbove != 0 && now >= s.firstAbove;
    var first := if !above then 0 else if s.firstAbove == 0 then now + c.interval else s.firstAbove;
    Popped(p, ok, s.(queue := q, firstAbove := first,
                     seen := s.seen + [Observation(now, sojourn, Bytes(q), ok, discard)]))
  }

  datatype Dropped = Dropped(packets: seq<Packet>, rest: State)

  /** The loop that drops while the control law says so. */
  function DropLoop(c: Tuning, s: State, now: nat): Dropped
    requires s.dropping ==> s.queue != []
    decreases |s.queue|
  {
    if now >= s.dropNext && s.dropping then
      var d := Popping(c, s, now, true);
      var t := d.rest.(count := Inc32(s.count));
      if !d.ok then Dropped([d.packet], t.(dropping := false))
      else
        assert Bytes(t.queue) > 0;
        var more := DropLoop(c, t.(dropNext := c.law(s.dropNext, t.count)), now);
        Dropped([d.packet] + more.packets, more.rest)
    else Dropped([], s)
  }

  /** `dequeue`: it returns the old head and throws away packets right behind it. */
  function Removing(c: Tuning, s: State, now: nat): Removal<State>
    requires s.queue != []
  {
    var r := Popping(c, s, now, false);
    if s.dropping then
      var d := DropLoop(c, r.rest.(dropping := r.ok), now);
      Removal([], r.packet, d.packets, d.rest)
    else if r.ok then
      assert Bytes(r.rest.queue) > 0;
      var d := Popping(c, r.rest, now, true);
      var delta := Elapsed32(s.count, s.lastCount);
      var count := if delta > 1 && Elapsed(now, s.dropNext) < 16 * c.interval % U32 then delta else 1;
      Removal([], r.packet, [d.packet], d.rest.(
        dropping := true, count := count, lastCount := count, dropNext := c.law(now, count)))
    else Removal([], r.packet, [], r.rest)
  }

  function Elapsed32(a: nat, b: nat): nat {
    if a >= b then a - b else (a - b) % U32
  }

  function Enqueuing(c: Tuning, s: State, p: Packet): State {
    if GoodWith(c.limits, Bytes(s.queue) + p.size, |s.queue| + 1) then s.(queue := s.queue + [p]) else s
  }

  // ----- sustained delay -----

  predicate Above(c: Tuning, o: Observation) {
    o.sojourn >= c.target && o.left > PACKET_SIZE
  }

  /** Where the run of observations above target that ends with the last one began; |h| when
      the last one was below. */
  ghost function StreakStart(c: Tuning, h: seq<Observation>): nat {
    if h == [] || !Above(c, h[|h| - 1]) then |h| else StreakStart(c, h[..|h| - 1])
  }

  lemma {:induction false} StreakIsAbove(c: Tuning, h: seq<Observation>)
    ensures StreakStart(c, h) <= |h|
    ensures forall i :: StreakStart(c, h) <= i < |h| ==> Above(c, h[i])
    ensures 0 < StreakStart(c, h) ==> !Above(c, h[StreakStart(c, h) - 1])
  {
    if h != [] && Above(c, h[|h| - 1]) { StreakIsAbove(c, h[..|h| - 1]); }
  }

  /** Observation i allowed a drop exactly when it was above target and the run of observations
      above target it belongs to began, with an earlier one, at least `interval` before it. */
  ghost predicate OkIffSustained(c: Tuning, h: seq<Observation>, i: nat)
    requires i < |h|
  {
    var from := StreakStart(c, h[..i + 1]);
    h[i].ok <==> from < i && h[from].now + c.interval <= h[i].now
  }

  /** A packet is thrown away only right after an observation, at the same time, allowed it. */
  ghost predicate DropsJustified(h: seq<Observation>) {
    forall i :: 0 <= i < |h| && h[i].discarded ==> i > 0 && h[i - 1].ok && h[i - 1].now == h[i].now
  }

  lemma StreakStep(c: Tuning, h: seq<Observation>, o: Observation)
    ensures StreakStart(c, h) <= |h|
    ensures StreakStart(c, h + [o]) == if Above(c, o) then StreakStart(c, h) else |h| + 1
  {
    StreakIsAbove(c, h);
    assert (h + [o])[..|h|] == h;
  }

  /** The timer is armed exactly during such a run, for `interval` after its beginning. */
  ghost predicate TimerOk(c: Tuning, s: State) {
    var from := StreakStart(c, s.seen);
    from <= |s.seen| && s.firstAbove == if from == |s.seen| then 0 else s.seen[from].now + c.interval
  }

  ghost predicate AllOkIffSustained(c: Tuning, h: seq<Observation>) {
    forall i :: 0 <= i < |h| ==> OkIffSustained(c, h, i)
  }

  ghost predicate Inv(c: Tuning, s: State) {
    WithinLimits(c.limits, s.queue) && TimerOk(c, s) && AllOkIffSustained(c, s.seen) && DropsJustified(s.seen)
  }

  lemma ObservationKeeps(c: Tuning, h: seq<Observation>, o: Observation)
    requires AllOkIffSustained(c, h) && OkIffSustained(c, h + [o], |h|)
    ensures AllOkIffSustained(c, h + [o])
  {
    var h' := h + [o];
    forall i | 0 <= i < |h'| ensures OkIffSustained(c, h', i) {
      if i < |h| {
        hide StreakStart;
        assert h'[..i + 1] == h[..i + 1];
        StreakIsAbove(c, h[..i + 1]);
        assert OkIffSustained(c, h, i);
      }
    }
  }

  /** `dodequeue` keeps the invariant; it may discard only if the observation before it, at the
      same time, allowed that. */
  lemma DoDequeueKeeps(c: Tuning, s: State, now: nat, discard: bool)
    requires ValidTuning(c) && Inv(c, s) && s.queue != []
    requires discard ==> s.seen != [] && s.seen[|s.seen| - 1].ok && s.seen[|s.seen| - 1].now == now
    ensures Inv(c, Popping(c, s, now, discard).rest)
  {
    hide StreakStart, Elapsed, AllOkIffSustained;
    var r := Popping(c, s, now, discard);
    var h := s.seen;
    var o := r.rest.seen[|h|];
    BytesSlice(s.queue, 0, 1);
    StreakStep(c, h, o);
    assert (h + [o])[..|h| + 1] == h + [o];
    ObservationKeeps(c, h, o);
  }

  lemma InvIgnoresDropState(c: Tuning, s: State, t: State)
    requires Inv(c, s) && t.queue == s.queue && t.firstAbove == s.firstAbove && t.seen == s.seen
    ensures Inv(c, t)
  {
  }

  /** The last observation allows a drop now, so the queue is not empty. */
  ghost predicate MayDrop(s: State, now: nat) {
    s.queue != [] && s.seen != [] && s.seen[|s.seen| - 1].ok && s.seen[|s.seen| - 1].now == now
  }

  lemma {:induction false} DropLoopTakesPrefix(c: Tuning, s: State, now: nat)
    requires s.dropping ==> s.queue != []
    ensures s.queue == DropLoop(c, s, now).packets + DropLoop(c, s, now).rest.queue
    decreases |s.queue|
  {
    if now >= s.dropNext && s.dropping {
      var d := Popping(c, s, now, true);
      if d.ok {
        assert Bytes(d.rest.queue) > 0;
        var t := d.rest.(count := Inc32(s.count));
        DropLoopTakesPrefix(c, t.(dropNext := c.law(s.dropNext, t.count)), now);
      }
    }
  }

  lemma {:induction false} DropLoopKeeps(c: Tuning, s: State, now: nat)
    requires ValidTuning(c) && Inv(c, s) && (s.dropping ==> MayDrop(s, now))
    ensures Inv(c, DropLoop(c, s, now).rest)
    decreases |s.queue|
  {
    if now >= s.dropNext && s.dropping {
      hide Inv, Elapsed, Inc32;
      DoDequeueKeeps(c, s, now, true);
      var d := Popping(c, s, now, true);
      var t := d.rest.(count := Inc32(s.count));
      InvIgnoresDropState(c, d.rest, t.(dropping := false));
      if d.ok {
        var u := t.(dropNext := c.law(s.dropNext, t.count));
        InvIgnoresDropState(c, d.rest, u);
        DropLoopKeeps(c, u, now);
      }
    }
  }

  /** A dequeue returns the old head and throws away packets right behind it. */
  lemma RemovingTakesPrefix(c: Tuning, s: State, now: nat)
    requires s.queue != []
    ensures var r := Removing(c, s, now);
      r.before == [] && r.packet == s.queue[0] && s.queue == [r.packet] + r.after + r.rest.queue
  {
    hide Elapsed, Elapsed32, DropLoop;
    var r := Popping(c, s, now, false);
    assert s.queue == [r.packet] + r.rest.queue;
    if s.dropping { DropLoopTakesPrefix(c, r.rest.(dropping := r.ok), now); }
  }

  /** On every dequeue the invariant survives, no packet is popped from an empty queue, the old
      head is returned and the packets thrown away are those right behind it. */
  lemma DequeueKeeps(c: Tuning, s: State, now: nat)
    requires ValidTuning(c) && Inv(c, s) && s.queue != []
    ensures var r := Removing(c, s, now);
      && Inv(c, r.rest) && r.before == [] && r.packet == s.queue[0]
      && s.queue == [r.packet] + r.after + r.rest.queue
  {
    hide Inv, Elapsed, Elapsed32, DropLoop;
    RemovingTakesPrefix(c, s, now);
    DoDequeueKeeps(c, s, now, false);
    var r := Popping(c, s, now, false);
    if s.dropping {
      var t := r.rest.(dropping := r.ok);
      InvIgnoresDropState(c, r.rest, t);
      DropLoopKeeps(c, t, now);
    } else if r.ok {
      DoDequeueKeeps(c, r.rest, now, true);
      InvIgnoresDropState(c, Popping(c, r.rest, now, true).rest, Removing(c, s, now).rest);
    }
  }

  lemma EnqueueKeeps(c: Tuning, s: State, p: Packet)
    requires Inv(c, s)
    ensures Inv(c, Enqueuing(c, s, p))
  {
    BytesAppend(s.queue, p);
  }

  // ----- runs -----

  datatype Event = Arrival(packet: Packet) | Departure(now: nat)

  function Initial(): State {
    State([], 0, 0, 0, 0, false, [])
  }

  function Run(c: Tuning, es: seq<Event>): State {
    if es == [] then Initial()
    else
      var s := Run(c, es[..|es| - 1]);
      match es[|es| - 1]
      case Arrival(p) => Enqueuing(c, s, p)
      case Departure(now) => if s.queue == [] then s else Removing(c, s, now).rest
  }

  lemma {:induction false} RunKeepsInv(c: Tuning, es: seq<Event>)
    requires ValidTuning(c)
    ensures Inv(c, Run(c, es))
  {
    hide Inv, Removing, Enqueuing;
    if es == [] {
      InitialInv(c);
    } else {
      RunKeepsInv(c, es[..|es| - 1]);
      var s := Run(c, es[..|es| - 1]);
      match es[|es| - 1]
      case Arrival(p) => EnqueueKeeps(c, s, p);
      case Departure(now) => if s.queue != [] { DequeueKeeps(c, s, now); }
    }
  }

  lemma InitialInv(c: Tuning)
    ensures Inv(c, Initial())
  {
  }

  /** On every run `ok_to_drop` means exactly sustained delay. */
  lemma OkMeansSustained(c: Tuning, es: seq<Event>, i: nat)
    requires ValidTuning(c)
    ensures i < |Run(c, es).seen| ==> OkIffSustained(c, Run(c, es).seen, i)
  {
    hide Run, OkIffSustained;
    RunKeepsInv(c, es);
  }

  /** Drops happen only after sustained delay: on every run, each packet thrown away follows,
      at the same time, an observation such that every observation since one at least
      `interval` earlier saw the target exceeded and more than 1504 bytes left. */
  lemma DropsOnlyAfterSustainedDelay(c: Tuning, es: seq<Event>, i: nat) returns (from: nat)
    requires ValidTuning(c)
    ensures var h := Run(c, es).seen;
      i < |h| && h[i].discarded ==>
        from < i && h[from].now + c.interval <= h[i].now && forall j :: from <= j < i ==> Above(c, h[j])
  {
    hide Run, StreakStart;
    RunKeepsInv(c, es);
    var h := Run(c, es).seen;
    from := 0;
    if i < |h| && h[i].discarded {
      assert OkIffSustained(c, h, i - 1);
      from := StreakStart(c, h[..i]);
      StreakIsAbove(c, h[..i]);
      assert h[..i - 1 + 1] == h[..i];
      assert forall j :: 0 <= j < i ==> h[..i][j] == h[j];
    }
  }

  // ----- the packets behind the observations -----

  /** The flags of the packets one dequeue took, from observation n on: the head is kept, all
      others are thrown away. */
  ghost predicate FlaggedFrom(h: seq<Observation>, n: nat, kept: nat) {
    n + kept <= |h|
    && (forall i :: n <= i < n + kept ==> !h[i].discarded) && forall i :: n + kept <= i < |h| ==> h[i].discarded
  }

  lemma {:induction false} DropLoopFlags(c: Tuning, s: State, now: nat)
    requires s.dropping ==> s.queue != []
    ensures var d := DropLoop(c, s, now);
      && |d.rest.seen| == |s.seen| + |d.packets| && s.seen <= d.rest.seen && FlaggedFrom(d.rest.seen, |s.seen|, 0)
    decreases |s.queue|
  {
    hide Elapsed, Bytes;
    DropLoopUnfolds(c, s, now);
    if now >= s.dropNext && s.dropping {
      var d := Popping(c, s, now, true);
      var t := d.rest.(count := Inc32(s.count));
      var u := if d.ok then t.(dropNext := c.law(s.dropNext, t.count)) else t.(dropping := false);
      DropLoopFlags(c, u, now);
    }
  }

  /** One dequeue makes one observation for each packet it takes, and flags as thrown away exactly
      those of the packets it throws away. */
  lemma RemovingFlags(c: Tuning, s: State, now: nat)
    requires s.queue != []
    ensures var r := Removing(c, s, now);
      && |r.rest.seen| == |s.seen| + 1 + |r.after| && s.seen <= r.rest.seen && FlaggedFrom(r.rest.seen, |s.seen|, 1)
  {
    hide Elapsed, Elapsed32, DropLoop, Bytes;
    var r := Popping(c, s, now, false);
    if s.dropping { DropLoopFlags(c, r.rest.(dropping := r.ok), now); }
  }

  /** All packets that dequeues have taken, in order, and those of them thrown away. */
  function Taken(c: Tuning, es: seq<Event>): seq<Packet> {
    if es == [] then []
    else
      var s, before := Run(c, es[..|es| - 1]), Taken(c, es[..|es| - 1]);
      match es[|es| - 1]
      case Arrival(p) => before
      case Departure(now) =>
        if s.queue == [] then before
        else before + [Removing(c, s, now).packet] + Removing(c, s, now).after
  }

  function ThrownAway(c: Tuning, es: seq<Event>): seq<Packet> {
    if es == [] then []
    else
      var s, before := Run(c, es[..|es| - 1]), ThrownAway(c, es[..|es| - 1]);
      match es[|es| - 1]
      case Arrival(p) => before
      case Departure(now) => if s.queue == [] then before else before + Removing(c, s, now).after
  }

  /** The packets of the first n observations that are flagged as thrown away. */
  function Flagged(ps: seq<Packet>, h: seq<Observation>, n: nat): seq<Packet>
    requires n <= |ps| && n <= |h|
  {
    if n == 0 then [] else Flagged(ps, h, n - 1) + if h[n - 1].discarded then [ps[n - 1]] else []
  }

  lemma {:induction false} FlaggedPrefix(
    ps: seq<Packet>, h: seq<Observation>, qs: seq<Packet>, g: seq<Observation>, n: nat)
    requires ps <= qs && h <= g && n <= |ps| && n <= |h|
    ensures Flagged(qs, g, n) == Flagged(ps, h, n)
  {
    if n > 0 { FlaggedPrefix(ps, h, qs, g, n - 1); }
  }

  /** After n observations come one of a packet kept and then only of packets thrown away. */
  lemma {:induction false} FlaggedGrows(ps: seq<Packet>, h: seq<Observation>, n: nat, m: nat)
    requires n < m <= |ps| && |ps| == |h| && FlaggedFrom(h, n, 1)
    ensures Flagged(ps, h, m) == Flagged(ps, h, n) + ps[n + 1..m]
  {
    if m > n + 1 {
      FlaggedGrows(ps, h, n, m - 1);
      assert ps[n + 1..m] == ps[n + 1..m - 1] + [ps[m - 1]];
    } else {
      assert ps[n + 1..m] == [];
    }
  }

  /** On every run there is one observation per packet taken, and the packets thrown away are
      exactly those whose observations are flagged. */
  lemma {:induction false} ThrownAwayAreFlagged(c: Tuning, es: seq<Event>)
    ensures var h, ps := Run(c, es).seen, Taken(c, es);
      |ps| == |h| && ThrownAway(c, es) == Flagged(ps, h, |h|)
  {
    hide Removing, Enqueuing;
    if es != [] {
      var e, s := es[|es| - 1], Run(c, es[..|es| - 1]);
      ThrownAwayAreFlagged(c, es[..|es| - 1]);
      EnqueuingObservesNothing(c, s, if e.Arrival? then e.packet else NO_PACKET);
      if e.Departure? && s.queue != [] {
        var r, ps := Removing(c, s, e.now), Taken(c, es[..|es| - 1]);
        var qs := ps + [r.packet] + r.after;
        RemovingFlags(c, s, e.now);
        FlaggedGrows(qs, r.rest.seen, |s.seen|, |qs|);
        assert qs[|s.seen| + 1..] == r.after;
        FlaggedPrefix(ps, s.seen, qs, r.rest.seen, |s.seen|);
      }
    }
  }

  lemma EnqueuingObservesNothing(c: Tuning, s: State, p: Packet)
    ensures Enqueuing(c, s, p).seen == s.seen
  {
  }

  lemma {:induction false} FlaggedAt(ps: seq<Packet>, h: seq<Observation>, n: nat, k: nat) returns (i: nat)
    requires n <= |ps| && n <= |h| && k < |Flagged(ps, h, n)|
    ensures i < n && h[i].discarded && ps[i] == Flagged(ps, h, n)[k]
  {
    if k < |Flagged(ps, h, n - 1)| {
      i := FlaggedAt(ps, h, n - 1, k);
    } else {
      i := n - 1;
    }
  }

  /** On every run each packet thrown away was taken by an observation i before which, at the same
      time, every observation since one at least `interval` earlier saw the target exceeded and
      more than 1504 bytes left. */
  lemma EachDropIsSustained(c: Tuning, es: seq<Event>, k: nat) returns (i: nat, from: nat)
    requires ValidTuning(c)
    ensures k < |ThrownAway(c, es)| ==>
      var h := Run(c, es).seen;
      && i < |h| == |Taken(c, es)| && Taken(c, es)[i] == ThrownAway(c, es)[k]
      && from < i && h[from].now + c.interval <= h[i].now && forall j :: from <= j < i ==> Above(c, h[j])
  {
    hide Run, Taken, ThrownAway;
    i, from := 0, 0;
    if k < |ThrownAway(c, es)| {
      ThrownAwayAreFlagged(c, es);
      i := FlaggedAt(Taken(c, es), Run(c, es).seen, |Run(c, es).seen|, k);
      from := DropsOnlyAfterSustainedDelay(c, es, i);
    }
  }

  // ----- as a discipline of the link -----

  /** The queue together with the readings its clock will give. */
  datatype Clocked = Clocked(state: State, clock: nat -> nat, taken: nat)

  function CoDelDiscipline(c: Tuning): Discipline<Clocked> {
    Discipline(
      (q: Clocked) => true,
      (q: Clocked, p: Packet) => true,
      (q: Clocked) => q.state.queue,
      (q: Clocked, p: Packet) => q.(state := Enqueuing(c, q.state, p)),
      (q: Clocked) =>
        if q.state.queue == [] then Removal([], NO_PACKET, [], q)
        else
          var r := Removing(c, q.state, q.clock(q.taken));
          Removal(r.before, r.packet, r.after, q.(state := r.rest, taken := q.taken + 1)))
  }

  lemma CoDelIsLawful(c: Tuning)
    ensures Lawful(CoDelDiscipline(c))
  {
    hide Removing;
    var d := CoDelDiscipline(c);
    forall q, p ensures EnqueueLaw(d, q, p) {
      assert (q.state.queue + [p])[0..] == q.state.queue + [p];
    }
    forall q | d.contents(q) != [] ensures DequeueLaw(d, q) {
      RemovingTakesPrefix(c, q.state, q.clock(q.taken));
      var r := Removing(c, q.state, q.clock(q.taken));
      assert [] + [r.packet] + r.after + r.rest.queue == [r.packet] + r.after + r.rest.queue;
    }
  }

  /** The loop is its first round and the rest. */
  lemma DropLoopUnfolds(c: Tuning, s: State, now: nat)
    requires s.dropping ==> s.queue != []
    ensures if now >= s.dropNext && s.dropping then
        var d := Popping(c, s, now, true);
        var t := d.rest.(count := Inc32(s.count));
        var u := if d.ok then t.(dropNext := c.law(s.dropNext, t.count)) else t.(dropping := false);
        && (u.dropping ==> u.queue != [])
        && DropLoop(c, s, now) == Dropped([d.packet] + DropLoop(c, u, now).packets, DropLoop(c, u, now).rest)
      else DropLoop(c, s, now) == Dropped([], s)
  {
    if now >= s.dropNext && s.dropping {
      var d := Popping(c, s, now, true);
      assert d.ok ==> Bytes(d.rest.queue) > 0;
      assert [d.packet] + [] == [d.packet];
    }
  }

  class CODELPacketQueue {
    const tuning: Tuning
    var internalQueue: seq<Packet>
    var sizeInBytes: int
    var sizeInPackets: int
    var firstAboveTime: nat
    var dropNext: nat
    var count: nat
    var lastCount: nat
    var dropping: bool
    ghost var seen: seq<Observation>

    ghost function View(): State
      reads this
    {
      State(internalQueue, firstAboveTime, dropNext, count, lastCount, dropping, seen)
    }

    ghost predicate Counted()
      reads this
    {
      sizeInBytes == Bytes(internalQueue) && sizeInPackets == |internalQueue|
    }

    ghost predicate Valid()
      reads this
    {
      Counted() && ValidTuning(tuning) && Inv(tuning, View())
    }

    constructor (tuning: Tuning)
      requires ValidTuning(tuning)
      ensures Valid() && this.tuning == tuning && View() == Initial()
    {
      this.tuning := tuning;
      internalQueue, sizeInBytes, sizeInPackets := [], 0, 0;
      firstAboveTime, dropNext, count, lastCount, dropping, seen := 0, 0, 0, 0, false, [];
    }

    method DoDequeue(now: nat, ghost discard: bool) returns (p: Packet, ok: bool)
      requires Counted() && internalQueue != []
      modifies this`internalQueue, this`sizeInBytes, this`sizeInPackets, this`firstAboveTime, this`seen
      ensures Counted()
      ensures var r := Popping(tuning, old(View()), now, discard);
        p == r.packet && ok == r.ok && View() == r.rest
      ensures |internalQueue| < |old(internalQueue)| && (ok ==> internalQueue != [])
    {
      hide Elapsed;
      p := internalQueue[0];
      internalQueue := internalQueue[1..];
      sizeInBytes := sizeInBytes - p.size;
      sizeInPackets := sizeInPackets - 1;
      ok := false;
      var sojourn := Elapsed(now, p.arrival);
      if internalQueue == [] {
        firstAboveTime := 0;
      } else if sojourn < tuning.target || sizeInBytes <= PACKET_SIZE {
        firstAboveTime := 0;
      } else if firstAboveTime == 0 {
        firstAboveTime := now + tuning.interval;
      } else if now >= firstAboveTime {
        ok := true;
      }
      seen := seen + [Observation(now, sojourn, Bytes(internalQueue), ok, discard)];
    }

    /** Drops while the control law says so; the ghost result is what it threw away. */
    method DropWhileDue(now: nat) returns (ghost dropped: seq<Packet>)
      requires Counted() && (dropping ==> internalQueue != [])
      modifies this
      ensures Counted() && Dropped(dropped, View()) == DropLoop(tuning, old(View()), now)
    {
      hide Inc32, Popping, DropLoop;
      dropped := [];
      ghost var goal := DropLoop(tuning, View(), now);
      while now >= dropNext && dropping
        invariant Counted() && (dropping ==> internalQueue != [])
        invariant var d := DropLoop(tuning, View(), now); goal == Dropped(dropped + d.packets, d.rest)
        decreases |internalQueue|
      {
        DropLoopUnfolds(tuning, View(), now);
        var x, again := DoDequeue(now, true);
        count := Inc32(count);
        if !again {
          dropping := false;
        } else {
          dropNext := tuning.law(dropNext, count);
        }
        ghost var more := DropLoop(tuning, View(), now).packets;
        ConcatAssoc(dropped, [x], more);
        dropped := dropped + [x];
      }
      DropLoopUnfolds(tuning, View(), now);
    }

    /** Returns the head; the ghost result is what it threw away behind it. */
    method Dequeue(now: nat) returns (p: Packet, ghost dropped: seq<Packet>)
      requires Valid() && internalQueue != []
      modifies this
      ensures Valid()
      ensures Removal([], p, dropped, View()) == Removing(tuning, old(View()), now)
    {
      hide Inv, Elapsed, Elapsed32, DropLoop, Popping;
      DequeueKeeps(tuning, View(), now);
      var ok;
      p, ok := DoDequeue(now, false);
      dropped := [];
      if dropping {
        if !ok {
          dropping := false;
        }
        dropped := DropWhileDue(now);
      } else if ok {
        var x, _ := DoDequeue(now, true);
        dropped := [x];
        dropping := true;
        var delta := Elapsed32(count, lastCount);
        count := if delta > 1 && Elapsed(now, dropNext) < 16 * tuning.interval % U32 then delta else 1;
        dropNext := tuning.law(now, count);
        lastCount := count;
      }
    }

    method Enqueue(p: Packet)
      requires Valid()
      modifies this`internalQueue, this`sizeInBytes, this`sizeInPackets
      ensures Valid() && View() == Enqueuing(tuning, old(View()), p)
    {
      hide Inv;
      EnqueueKeeps(tuning, View(), p);
      if GoodWith(tuning.limits, sizeInBytes + p.size, sizeInPackets + 1) {
        BytesAppend(internalQueue, p);
        sizeInBytes := sizeInBytes + p.size;
        sizeInPackets := sizeInPackets + 1;
        internalQueue := internalQueue + [p];
      }
    }
  }
}

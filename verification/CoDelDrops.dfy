/** When the CoDel queue drops, how many packets, and when it will drop next. */
module CoDelDrops {
  import opened Packets
  import opened Disciplines
  import opened DroppingQueues
  import opened CoDel

  // ----- what is observed -----

  /** One dequeue of s at `now` took the packets `taken` from the head, left t, and observed of each
      of them how long it had waited and how many bytes were left behind it. */
  ghost predicate Observed(s: State, now: nat, taken: seq<Packet>, t: State) {
    && s.queue == taken + t.queue && |t.seen| == |s.seen| + |taken| && s.seen <= t.seen
    && forall k :: 0 <= k < |taken| ==> ObservedAt(s, now, taken[k], t.seen[|s.seen| + k], k)
  }

  ghost predicate ObservedAt(s: State, now: nat, p: Packet, o: Observation, k: nat)
    requires k < |s.queue|
  {
    && o.now == now && o.left == Bytes(s.queue[k + 1..])
    && (p.arrival <= now ==> o.sojourn == now - p.arrival)
    && (now < p.arrival < U64 ==> o.sojourn == now + U64 - p.arrival)
  }

  lemma PoppingObserves(c: Tuning, s: State, now: nat, discard: bool)
    requires s.queue != []
    ensures Observed(s, now, [s.queue[0]], Popping(c, s, now, discard).rest)
  {
    assert s.queue == [s.queue[0]] + s.queue[1..];
  }

  /** Two takings in a row are one. */
  lemma ObservedOn(s: State, now: nat, p: Packet, m: State, ps: seq<Packet>, t: State)
    requires Observed(s, now, [p], m) && Observed(m, now, ps, t)
    ensures Observed(s, now, [p] + ps, t)
  {
    hide ObservedAt;
    assert s.queue == [p] + ps + t.queue;
    forall k | 0 <= k < |ps| + 1 ensures ObservedAt(s, now, ([p] + ps)[k], t.seen[|s.seen| + k], k) {
      if k == 0 {
        assert ObservedAt(s, now, [p][0], m.seen[|s.seen| + 0], 0);
        assert t.seen[|s.seen|] == m.seen[|s.seen|];
      } else {
        assert ObservedAt(m, now, ps[k - 1], t.seen[|m.seen| + (k - 1)], k - 1);
        ObservedShifts(s, now, ps[k - 1], t.seen[|s.seen| + k], m, k);
      }
    }
  }

  lemma ObservedShifts(s: State, now: nat, p: Packet, o: Observation, m: State, k: nat)
    requires 0 < k < |s.queue| && m.queue == s.queue[1..] && ObservedAt(m, now, p, o, k - 1)
    ensures ObservedAt(s, now, p, o, k)
  {
    assert m.queue[k..] == s.queue[k + 1..];
  }

  /** Observing does not look at the drop state. */
  lemma ObservedIgnores(s: State, now: nat, ps: seq<Packet>, t: State, s': State, t': State)
    requires Observed(s, now, ps, t) && s'.queue == s.queue && s'.seen == s.seen
    requires t'.queue == t.queue && t'.seen == t.seen
    ensures Observed(s', now, ps, t')
  {
    forall k | 0 <= k < |ps| ensures ObservedAt(s', now, ps[k], t'.seen[|s'.seen| + k], k) {
      assert ObservedAt(s, now, ps[k], t.seen[|s.seen| + k], k);
    }
  }

  lemma {:induction false} DropLoopObserves(c: Tuning, s: State, now: nat)
    requires s.dropping ==> s.queue != []
    ensures Observed(s, now, DropLoop(c, s, now).packets, DropLoop(c, s, now).rest)
    decreases |s.queue|
  {
    hide Observed, DropLoop, Popping;
    DropLoopUnfolds(c, s, now);
    if now >= s.dropNext && s.dropping {
      var d := Popping(c, s, now, true);
      var u := AfterDrop(c, s, d);
      PoppingObserves(c, s, now, true);
      PoppingKeepsDropState(c, s, now, true);
      ObservedIgnores(s, now, [d.packet], d.rest, s, u);
      DropLoopObserves(c, u, now);
      ObservedOn(s, now, d.packet, u, DropLoop(c, u, now).packets, DropLoop(c, u, now).rest);
    } else {
      NothingObserved(s, now);
    }
  }

  lemma NothingObserved(s: State, now: nat)
    ensures Observed(s, now, [], s)
  {
    assert [] + s.queue == s.queue;
  }

  /** The drop state after one round of the drop loop. */
  function AfterDrop(c: Tuning, s: State, d: Popped): State {
    var t := d.rest.(count := Inc32(s.count));
    if d.ok then t.(dropNext := c.law(s.dropNext, t.count)) else t.(dropping := false)
  }

  lemma PoppingKeepsDropState(c: Tuning, s: State, now: nat, discard: bool)
    requires s.queue != []
    ensures var d := Popping(c, s, now, discard);
      && d.packet == s.queue[0] && d.rest.dropNext == s.dropNext && d.rest.count == s.count
      && d.rest.lastCount == s.lastCount && d.rest.dropping == s.dropping && |d.rest.queue| < |s.queue|
      && |d.rest.seen| == |s.seen| + 1 && d.rest.seen[|s.seen|].ok == d.ok && s.seen <= d.rest.seen
  {
    hide Elapsed, Bytes;
  }

  // ----- the drop loop -----

  /** The time of the k-th drop from now on when the next one is due at t and `count` were made. */
  function DropTime(c: Tuning, t: nat, count: nat, k: nat): nat
    decreases k
  {
    if k == 0 then t else DropTime(c, c.law(t, (count + 1) % U32), (count + 1) % U32, k - 1)
  }

  /** Catching up with the control law at `now` by n drops: every drop was due, every observation
      but perhaps the last allowed a further one, and it stopped because the last did not or
      because the next drop is not due yet. */
  ghost predicate CatchesUp(c: Tuning, s: State, now: nat, n: nat, t: State) {
    && s.seen <= t.seen && |t.seen| == |s.seen| + n
    && (n > 0 <==> s.dropping && s.dropNext <= now)
    && (forall k :: 0 <= k < n ==> DropTime(c, s.dropNext, s.count, k) <= now)
    && (forall i :: |s.seen| <= i < |t.seen| - 1 ==> t.seen[i].ok)
    && (t.dropping <==> s.dropping && (n > 0 ==> t.seen[|s.seen| + n - 1].ok))
    && (t.dropping ==> t.dropNext == DropTime(c, s.dropNext, s.count, n) && now < t.dropNext)
    && (!t.dropping ==> t.dropNext == DropTime(c, s.dropNext, s.count, if n == 0 then 0 else n - 1))
    && t.count == (if n == 0 then s.count else (s.count + n) % U32) && t.lastCount == s.lastCount
  }

  lemma ModStep(a: nat, n: nat)
    ensures ((a + 1) % U32 + n) % U32 == (a + (n + 1)) % U32
  {
  }

  lemma CatchesUpOn(c: Tuning, s: State, now: nat, u: State, n: nat, t: State)
    requires s.dropping && s.dropNext <= now && CatchesUp(c, u, now, n, t)
    requires s.seen <= u.seen && |u.seen| == |s.seen| + 1
    requires u.count == (s.count + 1) % U32 && u.lastCount == s.lastCount
    requires u.dropping == u.seen[|s.seen|].ok
    requires u.dropNext == if u.dropping then c.law(s.dropNext, u.count) else s.dropNext
    ensures CatchesUp(c, s, now, n + 1, t)
  {
    ModStep(s.count, n);
    forall k | 0 <= k < n + 1 ensures DropTime(c, s.dropNext, s.count, k) <= now {
      if k > 0 { assert DropTime(c, u.dropNext, u.count, k - 1) <= now; }
    }
    assert t.seen[|s.seen|] == u.seen[|s.seen|];
    assert u.dropping ==> DropTime(c, s.dropNext, s.count, n + 1) == DropTime(c, u.dropNext, u.count, n);
    assert u.dropping && n > 0 ==> DropTime(c, s.dropNext, s.count, n) == DropTime(c, u.dropNext, u.count, n - 1);
  }

  lemma {:induction false} DropLoopCatchesUp(c: Tuning, s: State, now: nat)
    requires s.dropping ==> s.queue != []
    ensures var d := DropLoop(c, s, now); CatchesUp(c, s, now, |d.packets|, d.rest)
    decreases |s.queue|
  {
    hide DropLoop, Popping, CatchesUp;
    DropLoopUnfolds(c, s, now);
    if now >= s.dropNext && s.dropping {
      var d := Popping(c, s, now, true);
      var u := AfterDrop(c, s, d);
      PoppingKeepsDropState(c, s, now, true);
      DropLoopCatchesUp(c, u, now);
      CatchesUpOn(c, s, now, u, |DropLoop(c, u, now).packets|, DropLoop(c, u, now).rest);
    } else {
      NothingDue(c, s, now);
    }
  }

  lemma NothingDue(c: Tuning, s: State, now: nat)
    requires !(s.dropping && s.dropNext <= now)
    ensures CatchesUp(c, s, now, 0, s)
  {
  }

  // ----- one dequeue -----

  predicate SameDrops(s: State, t: State) {
    t.dropNext == s.dropNext && t.count == s.count && t.lastCount == s.lastCount
  }

  /** The count a new drop state begins with: that of the last one if it was recent, else 1. */
  function EntryCount(c: Tuning, s: State, now: nat): nat {
    var recent := (s.count - s.lastCount) % U32;
    var since := if s.dropNext <= now then now - s.dropNext else (now - s.dropNext) % U64;
    if recent > 1 && since < 16 * c.interval % U32 then recent else 1
  }

  /** What a dequeue of s at `now` that throws away n packets decides, by what it observed of the
      head: outside the drop state it drops one packet and enters it exactly when that is allowed;
      inside it leaves the drop state when that is not allowed, else it catches up. */
  ghost predicate Decided(c: Tuning, s: State, now: nat, n: nat, t: State) {
    && |s.seen| < |t.seen|
    && var ok := t.seen[|s.seen|].ok;
    && (n > 0 <==> ok && (!s.dropping || s.dropNext <= now))
    && (!s.dropping && !ok ==> !t.dropping && SameDrops(s, t))
    && (!s.dropping && ok ==>
          && n == 1 && t.dropping && t.count == EntryCount(c, s, now) == t.lastCount
          && t.dropNext == c.law(now, t.count))
    && (s.dropping && !ok ==> !t.dropping && SameDrops(s, t))
    && (s.dropping && ok ==> CatchesUp(c, s.(seen := t.seen[..|s.seen| + 1]), now, n, t))
  }

  ghost predicate CountsOk(s: State) {
    s.count < U32 && s.lastCount < U32
  }

  lemma EntryCountIs(c: Tuning, s: State, now: nat)
    requires CountsOk(s)
    ensures var delta := Elapsed32(s.count, s.lastCount);
      EntryCount(c, s, now) == if delta > 1 && Elapsed(now, s.dropNext) < 16 * c.interval % U32 then delta else 1
  {
  }

  lemma RemovingDecides(c: Tuning, s: State, now: nat)
    requires s.queue != [] && CountsOk(s)
    ensures var r := Removing(c, s, now);
      Decided(c, s, now, |r.after|, r.rest) && Observed(s, now, [r.packet] + r.after, r.rest)
  {
    hide Observed, Popping, DropLoop, CatchesUp, Elapsed, Elapsed32, EntryCount;
    var r := Popping(c, s, now, false);
    PoppingKeepsDropState(c, s, now, false);
    PoppingObserves(c, s, now, false);
    PoppingOk(c, s, now, false);
    EntryCountIs(c, s, now);
    if s.dropping {
      var t := r.rest.(dropping := r.ok);
      DropLoopCatchesUp(c, t, now);
      DropLoopObserves(c, t, now);
      ObservedIgnores(s, now, [r.packet], r.rest, s, t);
      var d := DropLoop(c, t, now);
      ObservedOn(s, now, r.packet, t, d.packets, d.rest);
      CatchesUpFacts(c, t, now, |d.packets|, d.rest);
      if r.ok { CatchesUpIgnores(c, t, s.(seen := d.rest.seen[..|s.seen| + 1]), now, |d.packets|, d.rest); }
    } else if r.ok {
      var d := Popping(c, r.rest, now, true);
      PoppingKeepsDropState(c, r.rest, now, true);
      PoppingObserves(c, r.rest, now, true);
      ObservedOn(s, now, r.packet, r.rest, [d.packet], d.rest);
      ObservedIgnores(s, now, [r.packet] + [d.packet], d.rest, s, Removing(c, s, now).rest);
    } else {
      assert [r.packet] + [] == [r.packet];
    }
  }

  lemma PoppingOk(c: Tuning, s: State, now: nat, discard: bool)
    requires s.queue != []
    ensures Popping(c, s, now, discard).ok ==> Popping(c, s, now, discard).rest.queue != []
  {
  }

  lemma CatchesUpFacts(c: Tuning, s: State, now: nat, n: nat, t: State)
    requires CatchesUp(c, s, now, n, t)
    ensures s.seen <= t.seen && (n > 0 <==> s.dropping && s.dropNext <= now)
    ensures !s.dropping ==> n == 0 && !t.dropping && SameDrops(s, t)
  {
  }

  lemma CatchesUpIgnores(c: Tuning, s: State, s': State, now: nat, n: nat, t: State)
    requires CatchesUp(c, s, now, n, t) && s'.dropping == s.dropping && SameDrops(s, s') && s'.seen == s.seen
    ensures CatchesUp(c, s', now, n, t)
  {
  }

  // ----- every run -----

  lemma RemovingCounts(c: Tuning, s: State, now: nat)
    requires s.queue != [] && CountsOk(s)
    ensures CountsOk(Removing(c, s, now).rest)
  {
    hide Removing;
    RemovingDecides(c, s, now);
  }

  lemma {:induction false} RunCounts(c: Tuning, es: seq<Event>)
    ensures CountsOk(Run(c, es))
  {
    hide Removing;
    if es != [] {
      RunCounts(c, es[..|es| - 1]);
      var s := Run(c, es[..|es| - 1]);
      match es[|es| - 1]
      case Arrival(p) =>
      case Departure(now) => if s.queue != [] { RemovingCounts(c, s, now); }
    }
  }

  /** On every run, every dequeue of a nonempty queue makes these decisions and throws away the
      packets that go with them. */
  lemma EveryDequeueDecides(c: Tuning, es: seq<Event>, now: nat) returns (taken: seq<Packet>)
    ensures var s, t := Run(c, es), Run(c, es + [Departure(now)]);
      s.queue != [] ==>
        && taken != [] && Taken(c, es + [Departure(now)]) == Taken(c, es) + taken
        && ThrownAway(c, es + [Departure(now)]) == ThrownAway(c, es) + taken[1..]
        && Observed(s, now, taken, t) && Decided(c, s, now, |taken| - 1, t)
  {
    hide Removing, Observed, Decided;
    var fs := es + [Departure(now)];
    assert fs[..|fs| - 1] == es;
    var s := Run(c, es);
    taken := [];
    if s.queue != [] {
      RunCounts(c, es);
      RemovingDecides(c, s, now);
      var r := Removing(c, s, now);
      taken := [r.packet] + r.after;
      assert Taken(c, es) + [r.packet] + r.after == Taken(c, es) + taken && taken[1..] == r.after;
    }
  }

  /** Inside a link every dequeue reads the clock anew, makes these decisions and leaves the clock
      as it is for the next one. */
  lemma LinkDequeueDecides(c: Tuning, q: Clocked)
    requires q.state.queue != [] && CountsOk(q.state)
    ensures var r := CoDelDiscipline(c).dequeue(q);
      && r.rest.taken == q.taken + 1 && r.rest.clock == q.clock && r.before == []
      && Observed(q.state, q.clock(q.taken), [r.packet] + r.after, r.rest.state)
      && Decided(c, q.state, q.clock(q.taken), |r.after|, r.rest.state) && CountsOk(r.rest.state)
  {
    hide Removing, Observed, Decided;
    RemovingDecides(c, q.state, q.clock(q.taken));
    RemovingCounts(c, q.state, q.clock(q.taken));
    RemovingTakesPrefix(c, q.state, q.clock(q.taken));
  }

  // ----- arrivals -----

  /** A packet is accepted exactly when it exceeds neither limit; otherwise nothing changes. */
  lemma AcceptsIff(c: Tuning, s: State, p: Packet)
    ensures var t, l := Enqueuing(c, s, p), c.limits;
      if (l.bytes == 0 || Bytes(s.queue) + p.size <= l.bytes) && (l.packets == 0 || |s.queue| + 1 <= l.packets)
      then t == s.(queue := s.queue + [p]) else t == s
  {
  }
}

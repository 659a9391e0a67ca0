/** `DropBitrateDequeueQueue`: the Octopus router, which drops whole messages. */
module Octopus {
  import opened Packets
  import opened Disciplines
  import opened DroppingQueues

  /** A message of a port. */
  datatype Key = Key(port: nat, msg: nat)

  const PRIORITIES: nat := 8

  /** `frame_counter_`, `msg_in_drop_` and `prio_to_droppers_` next to the queue. */
  datatype State = State(
    queue: seq<Packet>, counter: map<Key, nat>, inDrop: map<nat, nat>, droppers: map<nat, seq<int>>)

  function KeyOf(p: Packet): Key {
    Key(p.header.port, p.header.msgNo)
  }

  /** The ranges of the three-bit header fields. */
  predicate ValidHeader(p: Packet) {
    p.header.priority < PRIORITIES && p.header.threshold < PRIORITIES
  }

  /** What a queued packet adds to the counter of message k. */
  function Weight(p: Packet, k: Key): nat {
    if !p.header.octopus || KeyOf(p) != k then 0
    else match p.header.pos
      case First => 1
      case Last => 1
      case Mid => 0
      case Solo => 2
  }

  function TotalWeight(q: seq<Packet>, k: Key): nat {
    if q == [] then 0 else Weight(q[0], k) + TotalWeight(q[1..], k)
  }

  function Count(s: State, k: Key): nat {
    if k in s.counter then s.counter[k] else 0
  }

  function InDrop(s: State, port: nat): nat {
    if port in s.inDrop then s.inDrop[port] else 0
  }

  /** Reading an absent row with `operator[]` creates zeros; `enqueue` writes -1 instead. */
  function Row(s: State, port: nat, fill: int): seq<int> {
    if port in s.droppers then s.droppers[port] else seq(PRIORITIES, _ => fill)
  }

  function Accepts(l: Limits, s: State, p: Packet): bool {
    GoodWith(l, Bytes(s.queue) + p.size, |s.queue| + 1)
  }

  predicate IsDropper(p: Packet) {
    p.header.octopus && (p.header.pos == Last || p.header.pos == Solo) && p.header.preempt
  }

  /** The assertion in `enqueue` fails: a SOLO packet of a message that already has a counter. */
  predicate EnqueueAborts(l: Limits, s: State, p: Packet) {
    Accepts(l, s, p) && p.header.octopus && p.header.pos == Solo && KeyOf(p) in s.counter
  }

  function CountArrival(s: State, p: Packet): map<Key, nat> {
    if !p.header.octopus then s.counter
    else match p.header.pos
      case First => s.counter[KeyOf(p) := Count(s, KeyOf(p)) + 1]
      case Last => s.counter[KeyOf(p) := Count(s, KeyOf(p)) + 1]
      case Solo => s.counter[KeyOf(p) := 2]
      case Mid => s.counter
  }

  function NoteDropper(s: State, p: Packet): map<nat, seq<int>>
    requires p.header.threshold < |Row(s, p.header.port, -1)|
  {
    if !IsDropper(p) then s.droppers
    else
      var row, t := Row(s, p.header.port, -1), p.header.threshold;
      s.droppers[p.header.port := row[t := Max(row[t], p.header.msgNo)]]
  }

  /** Every row of the preemption table has eight entries. */
  ghost predicate RowsOk(s: State) {
    forall port :: port in s.droppers ==> |s.droppers[port]| == PRIORITIES
  }

  function Enqueued(l: Limits, s: State, p: Packet): State
    requires !EnqueueAborts(l, s, p)
    requires p.header.threshold < |Row(s, p.header.port, -1)|
  {
    if !Accepts(l, s, p) then s
    else s.(queue := s.queue + [p], counter := CountArrival(s, p), droppers := NoteDropper(s, p))
  }

  /** A packet is accepted, at the back of the queue, exactly when it exceeds neither limit;
      otherwise nothing changes. */
  lemma AcceptsIff(l: Limits, s: State, p: Packet)
    requires !EnqueueAborts(l, s, p) && p.header.threshold < |Row(s, p.header.port, -1)|
    ensures var t := Enqueued(l, s, p);
      if (l.bytes == 0 || Bytes(s.queue) + p.size <= l.bytes) && (l.packets == 0 || |s.queue| + 1 <= l.packets)
      then t.queue == s.queue + [p] else t == s
    ensures Accepts(l, s, p) <==>
      (l.bytes == 0 || Bytes(s.queue) + p.size <= l.bytes) && (l.packets == 0 || |s.queue| + 1 <= l.packets)
  {
  }

  /** The largest entry of a row up to a priority, or -1. */
  function Latest(row: seq<int>, upTo: nat): int
    requires upTo <= |row|
  {
    if upTo == 0 then -1 else Max(Latest(row, upTo - 1), row[upTo - 1])
  }

  /** An assertion fails or `.at` throws when the head leaves. */
  predicate FrontAborts(s: State)
    requires s.queue != []
  {
    var p := s.queue[0];
    p.header.octopus && match p.header.pos
      case First => KeyOf(p) !in s.counter
      case Last => KeyOf(p) !in s.counter
      case Solo => Count(s, KeyOf(p)) != 2
      case Mid => false
  }

  function CountDeparture(s: State, p: Packet): map<Key, nat>
    requires p.header.octopus && p.header.pos != Mid ==> KeyOf(p) in s.counter
  {
    var k := KeyOf(p);
    if !p.header.octopus || p.header.pos == Mid then s.counter
    else if p.header.pos == Solo || s.counter[k] <= 1 then s.counter - {k}
    else s.counter[k := s.counter[k] - 1]
  }

  /** The decision at a fully queued message: late enough, and too fast or overtaken. */
  predicate Decides(s: State, p: Packet, now: nat, share: nat)
    requires p.header.priority < |Row(s, p.header.port, 0)|
  {
    && now - p.arrival >= p.header.slack
    && (p.header.bitrate > share
        || p.header.msgNo < Latest(Row(s, p.header.port, 0), p.header.priority + 1))
  }

  datatype Front = Front(packet: Packet, marked: bool, rest: State)

  /** `dequeuefront` at clock reading `now` with fair share `share`. */
  function Leaving(s: State, now: nat, share: nat): Front
    requires s.queue != [] && !FrontAborts(s)
    requires s.queue[0].header.priority < |Row(s, s.queue[0].header.port, 0)|
  {
    var p, port, k := s.queue[0], s.queue[0].header.port, KeyOf(s.queue[0]);
    var t := s.(queue := s.queue[1..], counter := CountDeparture(s, p));
    if !p.header.octopus then Front(p, false, t)
    else if Count(s, k) == 2 then
      var marked := Decides(s, p, now, share);
      Front(p, marked, t.(
        droppers := s.droppers[port := Row(s, port, 0)],
        inDrop := if marked then s.inDrop[port := p.header.msgNo] else s.inDrop))
    else Front(p, p.header.msgNo == InDrop(s, port), t)
  }

  // ----- the frame counters -----

  /** Each counter is the weight of what is queued, and exists exactly when that is not zero. */
  ghost predicate CountersOk(s: State) {
    forall k :: (k in s.counter <==> TotalWeight(s.queue, k) > 0)
      && (k in s.counter ==> s.counter[k] == TotalWeight(s.queue, k))
  }

  /** No other boundary packet of a message is queued together with a SOLO packet of it. */
  ghost predicate SolosAlone(q: seq<Packet>) {
    forall i :: 0 <= i < |q| && q[i].header.octopus && q[i].header.pos == Solo ==> TotalWeight(q, KeyOf(q[i])) == 2
  }

  /** What every call keeps that does not abort. */
  ghost predicate IsCounted(l: Limits, s: State) {
    && WithinLimits(l, s.queue) && CountersOk(s) && RowsOk(s)
    && forall i :: 0 <= i < |s.queue| ==> ValidHeader(s.queue[i])
  }

  ghost predicate IsValid(l: Limits, s: State) {
    IsCounted(l, s) && SolosAlone(s.queue)
  }

  lemma {:induction false} WeightConcat(a: seq<Packet>, b: seq<Packet>, k: Key)
    ensures TotalWeight(a + b, k) == TotalWeight(a, k) + TotalWeight(b, k)
  {
    if a == [] {
      assert a + b == b;
    } else {
      assert (a + b)[1..] == a[1..] + b;
      WeightConcat(a[1..], b, k);
    }
  }

  lemma WeightAppend(q: seq<Packet>, p: Packet, k: Key)
    ensures TotalWeight(q + [p], k) == TotalWeight(q, k) + Weight(p, k)
  {
    WeightConcat(q, [p], k);
    assert [p][1..] == [];
  }

  lemma {:induction false} WeightAt(q: seq<Packet>, i: nat, k: Key)
    requires i < |q|
    ensures Weight(q[i], k) <= TotalWeight(q, k)
  {
    if i > 0 { WeightAt(q[1..], i - 1, k); }
  }

  /** What the assertions demand of a new packet: a SOLO packet finds no boundary packet of its
      message queued, and a boundary packet finds no SOLO packet. */
  predicate Admits(l: Limits, s: State, p: Packet) {
    && ValidHeader(p)
    && (Accepts(l, s, p) && p.header.octopus ==>
          (p.header.pos == Solo ==> TotalWeight(s.queue, KeyOf(p)) == 0)
          && (p.header.pos == First || p.header.pos == Last ==>
                forall x :: x in s.queue && x.header.octopus && KeyOf(x) == KeyOf(p) ==> x.header.pos != Solo))
  }

  /** The enqueue assertion fails exactly when a boundary packet of the message is queued. */
  lemma EnqueueAbortsIff(l: Limits, s: State, p: Packet)
    requires CountersOk(s)
    ensures EnqueueAborts(l, s, p) <==>
      Accepts(l, s, p) && p.header.octopus && p.header.pos == Solo && TotalWeight(s.queue, KeyOf(p)) > 0
  {
  }

  /** A dequeue fails exactly when a SOLO head has another boundary packet of its message behind it. */
  lemma FrontAbortsIff(s: State)
    requires CountersOk(s) && s.queue != []
    ensures FrontAborts(s) <==>
      s.queue[0].header.octopus && s.queue[0].header.pos == Solo
      && TotalWeight(s.queue[1..], KeyOf(s.queue[0])) > 0
  {
  }

  lemma CountedAbortsIff(l: Limits, s: State, p: Packet)
    requires IsCounted(l, s)
    ensures EnqueueAborts(l, s, p) <==>
      Accepts(l, s, p) && p.header.octopus && p.header.pos == Solo && TotalWeight(s.queue, KeyOf(p)) > 0
  {
    EnqueueAbortsIff(l, s, p);
  }

  lemma EnqueueCounters(l: Limits, s: State, p: Packet)
    requires CountersOk(s) && !EnqueueAborts(l, s, p) && Accepts(l, s, p)
    requires p.header.threshold < |Row(s, p.header.port, -1)|
    ensures CountersOk(Enqueued(l, s, p))
  {
    hide Accepts, NoteDropper;
    var r := Enqueued(l, s, p);
    forall k ensures (k in r.counter <==> TotalWeight(r.queue, k) > 0)
                  && (k in r.counter ==> r.counter[k] == TotalWeight(r.queue, k)) {
      WeightAppend(s.queue, p, k);
    }
  }

  lemma SolosAppend(q: seq<Packet>, p: Packet)
    requires SolosAlone(q)
    requires p.header.octopus && p.header.pos == Solo ==> TotalWeight(q, KeyOf(p)) == 0
    requires p.header.octopus && (p.header.pos == First || p.header.pos == Last) ==>
      forall x :: x in q && x.header.octopus && KeyOf(x) == KeyOf(p) ==> x.header.pos != Solo
    ensures SolosAlone(q + [p])
  {
    hide TotalWeight;
    var r := q + [p];
    forall i | 0 <= i < |r| && r[i].header.octopus && r[i].header.pos == Solo
      ensures TotalWeight(r, KeyOf(r[i])) == 2
    {
      WeightAppend(q, p, KeyOf(r[i]));
      if i < |q| { assert q[i] in q; }
    }
  }

  /** Every enqueue that does not abort keeps the counters exact. */
  lemma EnqueueCounts(l: Limits, s: State, p: Packet)
    requires IsCounted(l, s) && ValidHeader(p) && !EnqueueAborts(l, s, p)
    ensures p.header.threshold < |Row(s, p.header.port, -1)| && IsCounted(l, Enqueued(l, s, p))
  {
    hide CountersOk, CountArrival;
    if Accepts(l, s, p) {
      EnqueueCounters(l, s, p);
      BytesAppend(s.queue, p);
    }
  }

  /** Every enqueue the assertions allow keeps the counters exact and SOLO packets alone. */
  lemma EnqueueKeeps(l: Limits, s: State, p: Packet)
    requires IsValid(l, s) && Admits(l, s, p)
    ensures !EnqueueAborts(l, s, p) && p.header.threshold < |Row(s, p.header.port, -1)|
    ensures IsValid(l, Enqueued(l, s, p))
  {
    hide CountersOk, SolosAlone, TotalWeight, CountArrival, NoteDropper, RowsOk, WithinLimits;
    CountedAbortsIff(l, s, p);
    EnqueueCounts(l, s, p);
    if Accepts(l, s, p) { SolosAppend(s.queue, p); }
  }

  lemma FrontCounters(s: State, now: nat, share: nat)
    requires CountersOk(s) && s.queue != [] && !FrontAborts(s)
    requires s.queue[0].header.priority < |Row(s, s.queue[0].header.port, 0)|
    ensures CountersOk(Leaving(s, now, share).rest)
  {
    hide Decides, Row;
    var r := Leaving(s, now, share).rest;
    forall k ensures (k in r.counter <==> TotalWeight(r.queue, k) > 0)
                  && (k in r.counter ==> r.counter[k] == TotalWeight(r.queue, k)) {
      assert TotalWeight(s.queue, k) == Weight(s.queue[0], k) + TotalWeight(r.queue, k);
    }
  }

  lemma SolosStayAlone(s: seq<Packet>)
    requires s != [] && SolosAlone(s)
    ensures SolosAlone(s[1..])
  {
    var q := s[1..];
    forall i | 0 <= i < |q| && q[i].header.octopus && q[i].header.pos == Solo
      ensures TotalWeight(q, KeyOf(q[i])) == 2
    {
      assert q[i] == s[i + 1];
      assert TotalWeight(s, KeyOf(q[i])) == Weight(s[0], KeyOf(q[i])) + TotalWeight(q, KeyOf(q[i]));
      WeightAt(q, i, KeyOf(q[i]));
    }
  }

  /** A SOLO head of a queue where SOLO packets are alone has no boundary packet behind it. */
  lemma SoloHeadIsAlone(s: seq<Packet>)
    requires s != [] && SolosAlone(s) && s[0].header.octopus && s[0].header.pos == Solo
    ensures TotalWeight(s[1..], KeyOf(s[0])) == 0
  {
    assert TotalWeight(s, KeyOf(s[0])) == Weight(s[0], KeyOf(s[0])) + TotalWeight(s[1..], KeyOf(s[0]));
  }

  /** Every departure that does not abort keeps the counters exact. */
  lemma FrontCounts(l: Limits, s: State, now: nat, share: nat)
    requires IsCounted(l, s) && s.queue != [] && !FrontAborts(s)
    ensures s.queue[0].header.priority < |Row(s, s.queue[0].header.port, 0)|
    ensures IsCounted(l, Leaving(s, now, share).rest)
  {
    hide Decides, CountersOk, CountDeparture, FrontAborts;
    HeadIsCounted(s);
    FrontCounters(s, now, share);
    BytesSlice(s.queue, 0, 1);
    assert s.queue[0..] == s.queue;
  }

  /** In a valid state the head leaves without failing, and the counters stay exact. */
  lemma FrontKeeps(l: Limits, s: State, now: nat, share: nat)
    requires IsValid(l, s) && s.queue != []
    ensures !FrontAborts(s) && s.queue[0].header.priority < |Row(s, s.queue[0].header.port, 0)|
    ensures IsValid(l, Leaving(s, now, share).rest)
  {
    hide Leaving, CountersOk, RowsOk, SolosAlone, TotalWeight, FrontAborts, WithinLimits;
    FrontAbortsIff(s);
    if s.queue[0].header.octopus && s.queue[0].header.pos == Solo { SoloHeadIsAlone(s.queue); }
    FrontCounts(l, s, now, share);
    SolosStayAlone(s.queue);
    LeavingPops(s, now, share);
  }

  // ----- dequeue: pop until a packet may pass -----

  /** One clock reading and fair share per `dequeuefront`. */
  datatype Reading = Reading(now: nat, share: nat)

  datatype Outcome = Outcome(discarded: seq<Packet>, packet: Packet, marked: bool, rest: State, taken: nat)

  /** The loop condition of `dequeue`. */
  predicate GoesOn(f: Front) {
    f.rest.queue != [] && f.packet.header.octopus && f.marked
  }

  /** `dequeue`: throws away marked Octopus packets as long as another packet is queued. */
  ghost function Dequeuing(l: Limits, s: State, env: nat -> Reading, i: nat): (o: Outcome)
    requires IsValid(l, s) && s.queue != []
    ensures IsValid(l, o.rest)
    decreases |s.queue|
  {
    FrontKeeps(l, s, env(i).now, env(i).share);
    var f := Leaving(s, env(i).now, env(i).share);
    if GoesOn(f) then
      var o := Dequeuing(l, f.rest, env, i + 1);
      o.(discarded := [f.packet] + o.discarded)
    else Outcome([], f.packet, f.marked, f.rest, i + 1)
  }

  /** One round of the loop. */
  lemma DequeuingUnfolds(l: Limits, s: State, env: nat -> Reading, i: nat)
    requires IsValid(l, s) && s.queue != []
    ensures !FrontAborts(s) && s.queue[0].header.priority < |Row(s, s.queue[0].header.port, 0)|
    ensures var f := Leaving(s, env(i).now, env(i).share);
      && IsValid(l, f.rest)
      && Dequeuing(l, s, env, i) ==
        if GoesOn(f) then
          var o := Dequeuing(l, f.rest, env, i + 1);
          o.(discarded := [f.packet] + o.discarded)
        else Outcome([], f.packet, f.marked, f.rest, i + 1)
  {
    hide IsValid, Leaving;
    FrontKeeps(l, s, env(i).now, env(i).share);
  }

  /** The packets thrown away are Octopus packets from the head; a marked packet is returned only
      when nothing else is queued. */
  lemma {:induction false} DequeueTakes(l: Limits, s: State, env: nat -> Reading, i: nat)
    requires IsValid(l, s) && s.queue != []
    ensures var o := Dequeuing(l, s, env, i);
      && s.queue == o.discarded + [o.packet] + o.rest.queue
      && (o.marked ==> o.rest.queue == [])
      && (forall x :: x in o.discarded ==> x.header.octopus)
    decreases |s.queue|
  {
    hide IsValid, Leaving, Dequeuing, FrontAborts, Row;
    DequeuingUnfolds(l, s, env, i);
    LeavingPops(s, env(i).now, env(i).share);
    MarkedIsOctopus(s, env(i).now, env(i).share);
    var f := Leaving(s, env(i).now, env(i).share);
    if GoesOn(f) {
      DequeueTakes(l, f.rest, env, i + 1);
      var o := Dequeuing(l, f.rest, env, i + 1);
      assert [f.packet] + (o.discarded + [o.packet] + o.rest.queue)
          == [f.packet] + o.discarded + [o.packet] + o.rest.queue;
    }
  }

  // ----- as a discipline of the link -----

  /** The queue together with the readings its dequeues will take. */
  datatype Clocked = Clocked(state: State, env: nat -> Reading, taken: nat)

  ghost function OctopusDiscipline(l: Limits): Discipline<Clocked> {
    Discipline(
      (q: Clocked) => IsValid(l, q.state),
      (q: Clocked, p: Packet) => Admits(l, q.state, p),
      (q: Clocked) => q.state.queue,
      (q: Clocked, p: Packet) =>
        if EnqueueAborts(l, q.state, p) || p.header.threshold >= |Row(q.state, p.header.port, -1)| then q
        else q.(state := Enqueued(l, q.state, p)),
      (q: Clocked) =>
        if !IsValid(l, q.state) || q.state.queue == [] then Removal([], NO_PACKET, [], q)
        else
          var o := Dequeuing(l, q.state, q.env, q.taken);
          Removal(o.discarded, o.packet, [], q.(state := o.rest, taken := o.taken)))
  }

  lemma OctopusIsLawful(l: Limits)
    ensures Lawful(OctopusDiscipline(l))
  {
    hide Dequeuing, Admits, IsValid;
    var d := OctopusDiscipline(l);
    forall q, p | d.valid(q) && d.admits(q, p) ensures EnqueueLaw(d, q, p) {
      EnqueueKeeps(l, q.state, p);
      assert (q.state.queue + [p])[0..] == q.state.queue + [p];
    }
    forall q | d.valid(q) && d.contents(q) != [] ensures DequeueLaw(d, q) {
      DequeueTakes(l, q.state, q.env, q.taken);
      var o := Dequeuing(l, q.state, q.env, q.taken);
      assert o.discarded + [o.packet] + [] + o.rest.queue == o.discarded + [o.packet] + o.rest.queue;
    }
  }

  class DropBitrateDequeueQueue {
    const limits: Limits
    var internalQueue: seq<Packet>
    var sizeInBytes: int
    var sizeInPackets: int
    var frameCounter: map<Key, nat>
    var msgInDrop: map<nat, nat>
    var prioToDroppers: map<nat, seq<int>>

    ghost function View(): State
      reads this
    {
      State(internalQueue, frameCounter, msgInDrop, prioToDroppers)
    }

    /** All counters are exact; whatever does not abort keeps this. */
    ghost predicate Counted()
      reads this
    {
      && sizeInBytes == Bytes(internalQueue) && sizeInPackets == |internalQueue|
      && IsCounted(limits, View())
    }

    /** No dequeue can abort. */
    ghost predicate Valid()
      reads this
    {
      Counted() && SolosAlone(internalQueue)
    }

    constructor (limits: Limits)
      ensures Valid() && this.limits == limits && View() == State([], map[], map[], map[])
    {
      this.limits := limits;
      internalQueue, sizeInBytes, sizeInPackets := [], 0, 0;
      frameCounter, msgInDrop, prioToDroppers := map[], map[], map[];
    }

    method CountFrame(p: Packet)
      requires p.header.octopus && p.header.pos == Solo ==> KeyOf(p) !in frameCounter
      modifies this`frameCounter
      ensures frameCounter == CountArrival(old(View()), p)
    {
      var k, h := KeyOf(p), p.header;
      if h.octopus {
        if h.pos == First || h.pos == Last {
          if k !in frameCounter {
            frameCounter := frameCounter[k := 1];
          } else {
            frameCounter := frameCounter[k := frameCounter[k] + 1];
          }
        } else if h.pos == Solo {
          assert k !in frameCounter;
          frameCounter := frameCounter[k := 2];
        }
      }
    }

    method NotePreemption(p: Packet)
      requires p.header.threshold < |Row(View(), p.header.port, -1)|
      modifies this`prioToDroppers
      ensures prioToDroppers == NoteDropper(old(View()), p)
    {
      var port, h := p.header.port, p.header;
      if h.octopus && (h.pos == Last || h.pos == Solo) {
        if h.preempt {
          if port !in prioToDroppers {
            prioToDroppers := prioToDroppers[port := seq(PRIORITIES, _ => -1)];
          }
          if h.msgNo > prioToDroppers[port][h.threshold] {
            prioToDroppers := prioToDroppers[port := prioToDroppers[port][h.threshold := h.msgNo]];
          } else {
            ghost var row := prioToDroppers[port];
            assert row[h.threshold := row[h.threshold]] == row;
          }
        }
      }
    }

    /** Accepts any packet that does not abort; one the assertions allow keeps SOLO packets alone. */
    method Enqueue(p: Packet)
      requires Counted() && ValidHeader(p) && !EnqueueAborts(limits, View(), p)
      modifies this
      ensures Counted() && p.header.threshold < |Row(old(View()), p.header.port, -1)|
      ensures View() == Enqueued(limits, old(View()), p)
      ensures old(Valid() && Admits(limits, View(), p)) ==> Valid()
    {
      hide IsCounted, Admits, CountArrival, NoteDropper, SolosAlone, EnqueueAborts;
      ghost var s := View();
      EnqueueCounts(limits, s, p);
      SoloIsNew(limits, s, p);
      if Valid() && Admits(limits, s, p) { EnqueueKeeps(limits, s, p); }
      if GoodWith(limits, sizeInBytes + p.size, sizeInPackets + 1) {
        BytesAppend(internalQueue, p);
        CountFrame(p);
        NotingNeedsRowsOnly(s, View(), p);
        NotePreemption(p);
        sizeInBytes := sizeInBytes + p.size;
        sizeInPackets := sizeInPackets + 1;
        internalQueue := internalQueue + [p];
      }
    }

    /** The largest entry of the port's row up to the priority. */
    method LatestDropper(port: nat, priority: nat) returns (latest: int)
      requires RowsOk(View()) && priority < PRIORITIES
      modifies this`prioToDroppers
      ensures latest == Latest(Row(old(View()), port, 0), priority + 1)
      ensures prioToDroppers == old(prioToDroppers)[port := Row(old(View()), port, 0)]
    {
      if port !in prioToDroppers {
        prioToDroppers := prioToDroppers[port := seq(PRIORITIES, _ => 0)];
      }
      assert prioToDroppers == old(prioToDroppers)[port := Row(old(View()), port, 0)];
      latest := -1;
      for i := 0 to priority + 1
        invariant latest == Latest(prioToDroppers[port], i)
        invariant prioToDroppers == old(prioToDroppers)[port := Row(old(View()), port, 0)]
      {
        if prioToDroppers[port][i] > latest {
          latest := prioToDroppers[port][i];
        }
      }
    }

    method UncountFrame(p: Packet)
      requires p.header.octopus && p.header.pos != Mid ==> KeyOf(p) in frameCounter
      modifies this`frameCounter
      ensures frameCounter == CountDeparture(old(View()), p)
    {
      var k, h := KeyOf(p), p.header;
      if h.octopus {
        if h.pos == First || h.pos == Last {
          if frameCounter[k] <= 1 {
            frameCounter := frameCounter - {k};
          } else {
            frameCounter := frameCounter[k := frameCounter[k] - 1];
          }
        } else if h.pos == Solo {
          frameCounter := frameCounter - {k};
        }
      }
    }

    /** Whether an Octopus packet that leaves is to be dropped. */
    method Mark(p: Packet, now: nat, share: nat) returns (marked: bool)
      requires RowsOk(View()) && p.header.octopus && p.header.priority < PRIORITIES
      modifies this`prioToDroppers, this`msgInDrop
      ensures var s := old(View());
        if Count(s, KeyOf(p)) == 2 then
          && marked == Decides(s, p, now, share)
          && prioToDroppers == s.droppers[p.header.port := Row(s, p.header.port, 0)]
          && msgInDrop == if marked then s.inDrop[p.header.port := p.header.msgNo] else s.inDrop
        else
          && marked == (p.header.msgNo == InDrop(s, p.header.port))
          && prioToDroppers == s.droppers && msgInDrop == s.inDrop
    {
      marked := false;
      var k, port, h := KeyOf(p), p.header.port, p.header;
      if k in frameCounter && frameCounter[k] == 2 {
        var latest := LatestDropper(port, h.priority);
        if h.bitrate > share && now - p.arrival >= h.slack {
          marked := true;
          msgInDrop := msgInDrop[port := h.msgNo];
        } else if h.msgNo < latest && now - p.arrival >= h.slack {
          marked := true;
          msgInDrop := msgInDrop[port := h.msgNo];
        }
      } else if h.msgNo == (if port in msgInDrop then msgInDrop[port] else 0) {
        marked := true;
      }
    }

    method DequeueFront(now: nat, share: nat) returns (p: Packet, marked: bool)
      requires Counted() && internalQueue != [] && !FrontAborts(View())
      modifies this
      ensures Counted() && (old(Valid()) ==> Valid())
      ensures old(View()).queue[0].header.priority < |Row(old(View()), old(View()).queue[0].header.port, 0)|
      ensures Front(p, marked, View()) == Leaving(old(View()), now, share)
    {
      hide CountDeparture, Decides, CountersOk, SolosAlone, WithinLimits, FrontAborts;
      ghost var s := View();
      FrontCounts(limits, s, now, share);
      if Valid() { SolosStayAlone(internalQueue); }
      p := internalQueue[0];
      marked := false;
      if p.header.octopus {
        marked := Mark(p, now, share);
      }
      HeadIsCounted(s);
      UncountingNeedsCountersOnly(s, View(), p);
      UncountFrame(p);
      internalQueue := internalQueue[1..];
      sizeInBytes := sizeInBytes - p.size;
      sizeInPackets := sizeInPackets - 1;
    }

    /** Pops until a packet may pass; the ghost result is what it threw away. */
    method Dequeue(env: nat -> Reading, start: nat)
      returns (p: Packet, marked: bool, taken: nat, ghost discarded: seq<Packet>)
      requires Valid() && internalQueue != []
      modifies this
      ensures Valid()
      ensures Outcome(discarded, p, marked, View(), taken) == Dequeuing(limits, old(View()), env, start)
    {
      hide IsCounted, SolosAlone, Leaving, Dequeuing, FrontAborts, Row, Ahead;
      ghost var s := View();
      AheadStarts(limits, s, env, start);
      taken := start;
      discarded := [];
      p, marked := DequeueFront(env(taken).now, env(taken).share);
      taken := taken + 1;
      while internalQueue != [] && p.header.octopus && marked
        invariant Valid()
        invariant Ahead(limits, Front(p, marked, View()), env, taken, discarded) == Dequeuing(limits, s, env, start)
        decreases |internalQueue|
      {
        ghost var f := Front(p, marked, View());
        AheadGoesOn(limits, f, env, taken, discarded);
        LeavingPops(View(), env(taken).now, env(taken).share);
        discarded := discarded + [p];
        p, marked := DequeueFront(env(taken).now, env(taken).share);
        taken := taken + 1;
      }
      AheadEnds(limits, Front(p, marked, View()), env, taken, discarded);
    }
  }

  /** What a dequeue comes to after its latest departure f and the packets thrown away before. */
  ghost function Ahead(l: Limits, f: Front, env: nat -> Reading, i: nat, discarded: seq<Packet>): Outcome
    requires IsValid(l, f.rest)
  {
    if GoesOn(f) then
      var o := Dequeuing(l, f.rest, env, i);
      o.(discarded := discarded + [f.packet] + o.discarded)
    else Outcome(discarded, f.packet, f.marked, f.rest, i)
  }

  lemma AheadStarts(l: Limits, s: State, env: nat -> Reading, i: nat)
    requires IsValid(l, s) && s.queue != []
    ensures !FrontAborts(s) && s.queue[0].header.priority < |Row(s, s.queue[0].header.port, 0)|
    ensures var f := Leaving(s, env(i).now, env(i).share);
      IsValid(l, f.rest) && Ahead(l, f, env, i + 1, []) == Dequeuing(l, s, env, i)
  {
    hide IsValid, Leaving, Dequeuing, FrontAborts, Row;
    DequeuingUnfolds(l, s, env, i);
    var f := Leaving(s, env(i).now, env(i).share);
    assert [] + [f.packet] == [f.packet];
  }

  lemma AheadGoesOn(l: Limits, f: Front, env: nat -> Reading, i: nat, discarded: seq<Packet>)
    requires IsValid(l, f.rest) && GoesOn(f)
    ensures var s := f.rest;
      !FrontAborts(s) && s.queue[0].header.priority < |Row(s, s.queue[0].header.port, 0)|
    ensures var g := Leaving(f.rest, env(i).now, env(i).share);
      && IsValid(l, g.rest)
      && Ahead(l, f, env, i, discarded) == Ahead(l, g, env, i + 1, discarded + [f.packet])
  {
    hide IsValid, Leaving, Dequeuing, FrontAborts, Row;
    DequeuingUnfolds(l, f.rest, env, i);
    var g := Leaving(f.rest, env(i).now, env(i).share);
    var d := discarded + [f.packet];
    if GoesOn(g) {
      ConcatAssoc(d, [g.packet], Dequeuing(l, g.rest, env, i + 1).discarded);
    } else {
      assert d + [] == d;
    }
  }

  lemma AheadEnds(l: Limits, f: Front, env: nat -> Reading, i: nat, discarded: seq<Packet>)
    requires IsValid(l, f.rest) && !GoesOn(f)
    ensures Ahead(l, f, env, i, discarded) == Outcome(discarded, f.packet, f.marked, f.rest, i)
  {
    hide IsValid, Dequeuing;
  }

  lemma SoloIsNew(l: Limits, s: State, p: Packet)
    requires !EnqueueAborts(l, s, p)
    ensures Accepts(l, s, p) && p.header.octopus && p.header.pos == Solo ==> KeyOf(p) !in s.counter
  {
  }

  lemma HeadIsCounted(s: State)
    requires s.queue != [] && !FrontAborts(s)
    ensures s.queue[0].header.octopus && s.queue[0].header.pos != Mid ==> KeyOf(s.queue[0]) in s.counter
  {
  }

  lemma NotingNeedsRowsOnly(s: State, t: State, p: Packet)
    requires s.droppers == t.droppers && p.header.threshold < |Row(s, p.header.port, -1)|
    ensures p.header.threshold < |Row(t, p.header.port, -1)| && NoteDropper(s, p) == NoteDropper(t, p)
  {
  }

  lemma UncountingNeedsCountersOnly(s: State, t: State, p: Packet)
    requires s.counter == t.counter && (p.header.octopus && p.header.pos != Mid ==> KeyOf(p) in s.counter)
    ensures CountDeparture(s, p) == CountDeparture(t, p)
  {
  }

  lemma LeavingPops(s: State, now: nat, share: nat)
    requires s.queue != [] && !FrontAborts(s) && s.queue[0].header.priority < |Row(s, s.queue[0].header.port, 0)|
    ensures var f := Leaving(s, now, share);
      f.rest.queue == s.queue[1..] && s.queue == [f.packet] + f.rest.queue
  {
  }

  lemma MarkedIsOctopus(s: State, now: nat, share: nat)
    requires s.queue != [] && !FrontAborts(s) && s.queue[0].header.priority < |Row(s, s.queue[0].header.port, 0)|
    ensures Leaving(s, now, share).marked ==> Leaving(s, now, share).packet.header.octopus
  {
  }
}

/** What every run of the Octopus router keeps when each port sends its messages one after the
    other: marking is all or nothing per message, and the preemption table tells the history. */
module OctopusRuns {
  import opened Packets
  import opened DroppingQueues
  import opened Octopus

  /** The past: accepted packets, the mark of each departed one, how many packets had been
      accepted when it left, and what each port has offered so far. */
  datatype Past = Past(
    accepted: seq<Packet>, marks: seq<bool>, depth: seq<nat>, open: map<nat, nat>, seen: set<Key>)

  datatype Run = Run(state: State, past: Past)

  predicate Same(p: Packet, q: Packet) {
    p.header.octopus && q.header.octopus && KeyOf(p) == KeyOf(q)
  }

  predicate OnPort(p: Packet, port: nat) {
    p.header.octopus && p.header.port == port
  }

  // ----- how ports send: FIRST MID* LAST or SOLO, one message at a time, numbers never reused -----

  predicate Legal(h: Past, p: Packet) {
    var port, msg, k := p.header.port, p.header.msgNo, KeyOf(p);
    ValidHeader(p) && (p.header.octopus ==>
      match p.header.pos
      case First => port !in h.open && k !in h.seen
      case Solo => port !in h.open && k !in h.seen
      case Mid => port in h.open && h.open[port] == msg
      case Last => port in h.open && h.open[port] == msg)
  }

  /** What the port has offered after p, whether or not p was accepted. */
  function Offered(h: Past, p: Packet, accepted: bool): Past {
    var port, k := p.header.port, KeyOf(p);
    var g := if accepted then h.(accepted := h.accepted + [p]) else h;
    if !p.header.octopus then g
    else match p.header.pos
      case First => g.(open := h.open[port := p.header.msgNo], seen := h.seen + {k})
      case Solo => g.(seen := h.seen + {k})
      case Mid => g
      case Last => g.(open := h.open - {port})
  }

  /** Packets of a message keep the order FIRST, MID, LAST. */
  ghost predicate InMessageOrder(a: seq<Packet>) {
    forall i, j :: 0 <= i < j < |a| && Same(a[i], a[j]) ==>
      a[i].header.pos in {First, Mid} && a[j].header.pos in {Mid, Last}
  }

  /** Between two packets of a message its port sends nothing else. */
  ghost predicate Contiguous(a: seq<Packet>) {
    forall i, j, k :: 0 <= i < j < k < |a| && Same(a[i], a[k]) && OnPort(a[j], a[i].header.port) ==>
      Same(a[i], a[j])
  }

  ghost predicate AllSeen(h: Past) {
    && (forall i :: 0 <= i < |h.accepted| && h.accepted[i].header.octopus ==> KeyOf(h.accepted[i]) in h.seen)
    && (forall port :: port in h.open ==> Key(port, h.open[port]) in h.seen)
  }

  /** p belongs to the message its port is still sending. */
  predicate OfOpen(h: Past, p: Packet) {
    p.header.octopus && p.header.port in h.open && h.open[p.header.port] == p.header.msgNo
  }

  /** A message still open has sent no LAST or SOLO, and nothing else came after it on its port. */
  ghost predicate OpenIsLatest(h: Past) {
    var a := h.accepted;
    && (forall i :: 0 <= i < |a| && OfOpen(h, a[i]) ==> a[i].header.pos in {First, Mid})
    && (forall i, j :: 0 <= i < j < |a| && OfOpen(h, a[i]) && OnPort(a[j], a[i].header.port) ==> Same(a[i], a[j]))
  }

  ghost predicate HeadersOk(a: seq<Packet>) {
    forall i :: 0 <= i < |a| ==> ValidHeader(a[i])
  }

  ghost predicate ArrivalsOk(h: Past) {
    && InMessageOrder(h.accepted) && Contiguous(h.accepted) && AllSeen(h) && OpenIsLatest(h)
    && HeadersOk(h.accepted)
  }

  lemma RefusedKeepsArrivals(h: Past, p: Packet)
    requires ArrivalsOk(h) && Legal(h, p)
    ensures ArrivalsOk(Offered(h, p, false))
  {
  }

  lemma AppendInMessageOrder(h: Past, p: Packet)
    requires InMessageOrder(h.accepted) && AllSeen(h) && OpenIsLatest(h) && Legal(h, p)
    ensures InMessageOrder(h.accepted + [p])
  {
  }

  lemma AppendContiguous(h: Past, p: Packet)
    requires Contiguous(h.accepted) && AllSeen(h) && OpenIsLatest(h) && Legal(h, p)
    ensures Contiguous(h.accepted + [p])
  {
  }

  lemma AppendOpenIsLatest(h: Past, p: Packet)
    requires AllSeen(h) && OpenIsLatest(h) && Legal(h, p)
    ensures OpenIsLatest(Offered(h, p, true))
  {
  }

  lemma AcceptedKeepsArrivals(h: Past, p: Packet)
    requires ArrivalsOk(h) && Legal(h, p)
    ensures ArrivalsOk(Offered(h, p, true))
  {
    AppendInMessageOrder(h, p);
    AppendContiguous(h, p);
    AppendOpenIsLatest(h, p);
    hide InMessageOrder, Contiguous, OpenIsLatest;
  }

  // ----- marks -----

  /** The message of the last marked departure on a port, or 0. */
  ghost function LastMarked(a: seq<Packet>, marks: seq<bool>, port: nat): nat
    requires |marks| <= |a|
  {
    if marks == [] then 0
    else
      var d := |marks| - 1;
      if marks[d] && OnPort(a[d], port) then a[d].header.msgNo else LastMarked(a, marks[..d], port)
  }

  ghost predicate RegisterOk(r: Run) {
    var h := r.past;
    |h.marks| <= |h.accepted| && forall port :: InDrop(r.state, port) == LastMarked(h.accepted, h.marks, port)
  }

  /** Packet e is the LAST of the message whose FIRST is packet i. */
  predicate Closes(a: seq<Packet>, i: nat, e: nat)
    requires i < |a|
  {
    i < e < |a| && Same(a[i], a[e]) && a[i].header.pos == First && a[e].header.pos == Last
  }

  /** Packet i is SOLO, or FIRST with the LAST of its message among the first `depth` accepted. */
  ghost predicate Whole(a: seq<Packet>, i: nat, depth: nat)
    requires i < |a|
  {
    a[i].header.octopus && (a[i].header.pos == Solo || exists e: nat :: e < depth && Closes(a, i, e))
  }

  lemma WholeAppend(a: seq<Packet>, b: seq<Packet>, i: nat, depth: nat)
    requires i < |a| && depth <= |a|
    ensures Whole(a + b, i, depth) <==> Whole(a, i, depth)
  {
    forall e: nat | e < depth ensures Closes(a + b, i, e) <==> Closes(a, i, e) {
    }
  }

  /** Departure i was marked by the rule: never when it is no Octopus packet, and unless its
      message was whole, exactly when the last mark on its port was for its message number. */
  ghost predicate RuleAt(h: Past, i: nat)
    requires i < |h.marks| <= |h.accepted| && |h.depth| == |h.marks|
  {
    var p := h.accepted[i];
    && i < h.depth[i] <= |h.accepted|
    && (!p.header.octopus ==> !h.marks[i])
    && (p.header.octopus && !Whole(h.accepted, i, h.depth[i]) ==>
          h.marks[i] == (p.header.msgNo == LastMarked(h.accepted, h.marks[..i], p.header.port)))
  }

  ghost predicate MarksOk(h: Past) {
    |h.marks| <= |h.accepted| && |h.depth| == |h.marks| && forall i :: 0 <= i < |h.marks| ==> RuleAt(h, i)
  }

  /** Growing the arrivals does not change the past of the departed. */
  lemma {:induction false} LastMarkedAppend(a: seq<Packet>, b: seq<Packet>, marks: seq<bool>, port: nat)
    requires |marks| <= |a|
    ensures LastMarked(a + b, marks, port) == LastMarked(a, marks, port)
  {
    if marks != [] { LastMarkedAppend(a, b, marks[..|marks| - 1], port); }
  }

  // ----- what the rule means for a message -----

  /** A number other than 0 in the register is that of an earlier marked packet. */
  lemma {:induction false} LastMarkedWitness(a: seq<Packet>, marks: seq<bool>, port: nat) returns (i: nat)
    requires |marks| <= |a| && LastMarked(a, marks, port) != 0
    ensures i < |marks| && marks[i] && OnPort(a[i], port) && a[i].header.msgNo == LastMarked(a, marks, port)
  {
    var d := |marks| - 1;
    if marks[d] && OnPort(a[d], port) {
      i := d;
    } else {
      i := LastMarkedWitness(a, marks[..d], port);
    }
  }

  /** While only message m leaves on a port, the register moves to m at the first mark. */
  lemma {:induction false} LastMarkedSpan(a: seq<Packet>, marks: seq<bool>, port: nat, i: nat, j: nat, m: nat)
    requires i <= j <= |marks| <= |a|
    requires forall k :: i <= k < j && OnPort(a[k], port) ==> a[k].header.msgNo == m
    ensures LastMarked(a, marks[..j], port) ==
      if exists k :: i <= k < j && marks[k] && OnPort(a[k], port) then m else LastMarked(a, marks[..i], port)
  {
    if i < j {
      assert marks[..j][..j - 1] == marks[..j - 1];
      LastMarkedSpan(a, marks, port, i, j - 1, m);
    }
  }

  /** Departure i belonged to a whole message that was let through although the register stood on
      its number. */
  ghost predicate Exposed(h: Past, i: nat)
    requires i < |h.marks| <= |h.accepted| && |h.depth| == |h.marks|
  {
    var p := h.accepted[i];
    && Whole(h.accepted, i, h.depth[i]) && !h.marks[i]
    && LastMarked(h.accepted, h.marks[..i], p.header.port) == p.header.msgNo
  }

  /** Later packets of the head's message are no decision points. */
  lemma LaterIsNotWhole(h: Past, i: nat, j: nat)
    requires ArrivalsOk(h) && MarksOk(h) && i < j < |h.marks| && Same(h.accepted[i], h.accepted[j])
    ensures !Whole(h.accepted, j, h.depth[j])
  {
    hide Contiguous, AllSeen, OpenIsLatest, LastMarked;
    assert h.accepted[j].header.pos in {Mid, Last};
  }

  /** Two departed packets of a message carry the same mark exactly when the first of them was
      not exposed. */
  lemma {:induction false} SameMarkIff(h: Past, i: nat, j: nat)
    requires ArrivalsOk(h) && MarksOk(h) && i < j < |h.marks| && Same(h.accepted[i], h.accepted[j])
    ensures h.marks[i] == h.marks[j] <==> !Exposed(h, i)
    decreases j
  {
    hide LastMarked, Whole, InMessageOrder, AllSeen, OpenIsLatest, HeadersOk;
    var a, port, m := h.accepted, h.accepted[i].header.port, h.accepted[i].header.msgNo;
    assert RuleAt(h, i) && RuleAt(h, j);
    LaterIsNotWhole(h, i, j);
    forall k | i < k < j && OnPort(a[k], port)
      ensures Same(a[i], a[k]) && (h.marks[k] == h.marks[i] <==> !Exposed(h, i))
    {
      SameMarkIff(h, i, k);
    }
    LastMarkedSpan(a, h.marks, port, i, j, m);
  }

  /** A decision point has no earlier packet of its message. */
  lemma WholeIsFirst(h: Past, i: nat, k: nat)
    requires ArrivalsOk(h) && MarksOk(h) && k < i < |h.marks| && Whole(h.accepted, i, h.depth[i])
    ensures !Same(h.accepted[k], h.accepted[i])
  {
    hide LastMarked, Contiguous, AllSeen, OpenIsLatest, HeadersOk;
  }

  /** Only message number 0 can be exposed. */
  lemma ExposedIsZero(h: Past, i: nat)
    requires ArrivalsOk(h) && MarksOk(h) && i < |h.marks| && Exposed(h, i)
    ensures h.accepted[i].header.msgNo == 0
  {
    hide LastMarked, ArrivalsOk, RuleAt;
    if h.accepted[i].header.msgNo != 0 {
      var k := LastMarkedWitness(h.accepted, h.marks[..i], h.accepted[i].header.port);
      WholeIsFirst(h, i, k);
    }
  }

  /** All departed packets of a message with a number other than 0 carry the same mark. */
  ghost predicate AllOrNothing(h: Past) {
    |h.marks| <= |h.accepted|
    && forall i, j :: 0 <= i < j < |h.marks| && Same(h.accepted[i], h.accepted[j]) ==>
         h.accepted[i].header.msgNo == 0 || h.marks[i] == h.marks[j]
  }

  /** Packet i is SOLO, or the FIRST and LAST of its message were both queued when FIRST left. */
  ghost predicate WasWhole(h: Past, i: nat)
    requires i < |h.marks| <= |h.accepted| && |h.depth| == |h.marks|
  {
    exists f :: 0 <= f <= i && Same(h.accepted[f], h.accepted[i]) && Whole(h.accepted, f, h.depth[f])
  }

  ghost predicate MarkedWereWhole(h: Past) {
    && |h.marks| <= |h.accepted| && |h.depth| == |h.marks|
    && forall i :: 0 <= i < |h.marks| && h.marks[i] && h.accepted[i].header.msgNo != 0 ==> WasWhole(h, i)
  }

  lemma {:induction false} MarkedWasWhole(h: Past, i: nat)
    requires MarksOk(h) && i < |h.marks| && h.marks[i] && h.accepted[i].header.msgNo != 0
    ensures WasWhole(h, i)
    decreases i
  {
    hide LastMarked, Whole;
    var a, p := h.accepted, h.accepted[i];
    assert RuleAt(h, i);
    if Whole(a, i, h.depth[i]) {
      assert Same(a[i], a[i]);
    } else {
      var k := LastMarkedWitness(a, h.marks[..i], p.header.port);
      MarkedWasWhole(h, k);
      var f :| 0 <= f <= k && Same(a[f], a[k]) && Whole(a, f, h.depth[f]);
      assert Same(a[f], a[i]);
    }
  }

  lemma RuleIsAllOrNothing(h: Past)
    requires ArrivalsOk(h) && MarksOk(h)
    ensures AllOrNothing(h) && MarkedWereWhole(h)
  {
    hide ArrivalsOk, RuleAt, WasWhole, Exposed;
    forall i, j | 0 <= i < j < |h.marks| && Same(h.accepted[i], h.accepted[j]) && h.accepted[i].header.msgNo != 0
      ensures h.marks[i] == h.marks[j]
    {
      SameMarkIff(h, i, j);
      if Exposed(h, i) { ExposedIsZero(h, i); }
    }
    forall i | 0 <= i < |h.marks| && h.marks[i] && h.accepted[i].header.msgNo != 0 ensures WasWhole(h, i) {
      MarkedWasWhole(h, i);
    }
  }

  // ----- the preemption table -----

  /** p was accepted and may overtake messages on `port` of priority `threshold` and below. */
  predicate Overtakes(p: Packet, port: nat, threshold: nat) {
    IsDropper(p) && p.header.port == port && p.header.threshold == threshold
  }

  ghost predicate EntryOk(a: seq<Packet>, port: nat, t: nat, entry: int) {
    && (forall i :: 0 <= i < |a| && Overtakes(a[i], port, t) ==> a[i].header.msgNo <= entry)
    && (entry > 0 ==> exists i :: 0 <= i < |a| && Overtakes(a[i], port, t) && a[i].header.msgNo == entry)
  }

  ghost predicate TableOk(s: State, a: seq<Packet>) {
    && RowsOk(s)
    && (forall port, t :: port in s.droppers && 0 <= t < PRIORITIES ==> EntryOk(a, port, t, s.droppers[port][t]))
    && (forall i :: 0 <= i < |a| && IsDropper(a[i]) ==> a[i].header.port in s.droppers)
  }

  /** Some accepted preempting LAST or SOLO on the port had a larger number and a threshold at
      or below p's priority. */
  ghost predicate Overtaken(a: seq<Packet>, p: Packet) {
    exists i :: 0 <= i < |a| && Preempts(a[i].header, p.header)
  }

  predicate Preempts(d: Header, h: Header) {
    && d.octopus && d.preempt && (d.pos == Last || d.pos == Solo) && d.port == h.port
    && d.threshold <= h.priority && d.msgNo > h.msgNo
  }

  lemma {:induction false} LatestIsMax(row: seq<int>, upTo: nat)
    requires upTo <= |row|
    ensures forall i :: 0 <= i < upTo ==> row[i] <= Latest(row, upTo)
    ensures Latest(row, upTo) == -1 || exists i :: 0 <= i < upTo && row[i] == Latest(row, upTo)
  {
    if upTo > 0 { LatestIsMax(row, upTo - 1); }
  }

  /** The table answers the question it stands for, whether a row began as -1 or as zeros. */
  lemma TableTellsHistory(s: State, a: seq<Packet>, p: Packet)
    requires TableOk(s, a) && ValidHeader(p)
    requires HeadersOk(a)
    ensures p.header.priority < |Row(s, p.header.port, 0)|
    ensures p.header.msgNo < Latest(Row(s, p.header.port, 0), p.header.priority + 1) <==> Overtaken(a, p)
  {
    var port, n := p.header.port, p.header.priority + 1;
    var row := Row(s, port, 0);
    LatestIsMax(row, n);
    if p.header.msgNo < Latest(row, n) {
      var t :| 0 <= t < n && row[t] == Latest(row, n);
      assert EntryOk(a, port, t, row[t]);
    }
    if Overtaken(a, p) {
      var i :| 0 <= i < |a| && Preempts(a[i].header, p.header);
      var t := a[i].header.threshold;
      assert EntryOk(a, port, t, row[t]) && Overtakes(a[i], port, t);
    }
  }

  /** A packet of a fully queued message is marked exactly when it is late enough and either too
      fast or overtaken by an accepted message. */
  lemma DecisionMatchesHistory(s: State, a: seq<Packet>, now: nat, share: nat)
    requires TableOk(s, a) && s.queue != [] && !FrontAborts(s) && ValidHeader(s.queue[0])
    requires HeadersOk(a)
    requires s.queue[0].header.octopus && Count(s, KeyOf(s.queue[0])) == 2
    ensures var p := s.queue[0];
      p.header.priority < |Row(s, p.header.port, 0)|
      && (Leaving(s, now, share).marked <==>
            now - p.arrival >= p.header.slack && (p.header.bitrate > share || Overtaken(a, p)))
  {
    TableTellsHistory(s, a, s.queue[0]);
  }

  /** Accepting a packet keeps the table exact. */
  lemma NoteDropperKeepsTable(l: Limits, s: State, a: seq<Packet>, p: Packet)
    requires TableOk(s, a) && HeadersOk(a) && ValidHeader(p) && !EnqueueAborts(l, s, p) && Accepts(l, s, p)
    ensures p.header.threshold < |Row(s, p.header.port, -1)| && TableOk(Enqueued(l, s, p), a + [p])
  {
    hide EnqueueAborts, Accepts, CountArrival;
    var r, b, n := Enqueued(l, s, p), a + [p], |a|;
    assert b[n] == p && forall i :: 0 <= i < n ==> b[i] == a[i];
    forall port, t | port in r.droppers && 0 <= t < PRIORITIES ensures EntryOk(b, port, t, r.droppers[port][t]) {
      var was := Row(s, port, -1)[t];
      assert EntryOk(a, port, t, was);
      EntryAppend(a, p, port, t, was);
    }
  }

  lemma EntryAppend(a: seq<Packet>, p: Packet, port: nat, t: nat, entry: int)
    requires EntryOk(a, port, t, entry)
    ensures EntryOk(a + [p], port, t, if Overtakes(p, port, t) then Max(entry, p.header.msgNo) else entry)
  {
    var b, n := a + [p], |a|;
    assert b[n] == p && forall i :: 0 <= i < n ==> b[i] == a[i];
    if entry > 0 {
      var i :| 0 <= i < |a| && Overtakes(a[i], port, t) && a[i].header.msgNo == entry;
      assert b[i] == a[i];
    }
  }

  lemma FrontKeepsTable(s: State, a: seq<Packet>, now: nat, share: nat)
    requires TableOk(s, a) && HeadersOk(a) && s.queue != [] && !FrontAborts(s) && ValidHeader(s.queue[0])
    ensures s.queue[0].header.priority < |Row(s, s.queue[0].header.port, 0)|
    ensures TableOk(Leaving(s, now, share).rest, a)
  {
  }

  // ----- one step of a run -----

  ghost predicate Inv(l: Limits, r: Run) {
    var h := r.past;
    && IsValid(l, r.state) && |h.marks| <= |h.accepted| && r.state.queue == h.accepted[|h.marks|..]
    && ArrivalsOk(h) && RegisterOk(r) && MarksOk(h) && TableOk(r.state, h.accepted)
  }

  lemma {:induction false} WeightZero(q: seq<Packet>, k: Key)
    requires forall i :: 0 <= i < |q| && q[i].header.octopus ==> KeyOf(q[i]) != k
    ensures TotalWeight(q, k) == 0
  {
    if q != [] { WeightZero(q[1..], k); }
  }

  lemma {:induction false} WeightWitness(q: seq<Packet>, k: Key) returns (i: nat)
    requires TotalWeight(q, k) > 0
    ensures i < |q| && Weight(q[i], k) > 0
  {
    if Weight(q[0], k) > 0 {
      i := 0;
    } else {
      i := WeightWitness(q[1..], k);
      i := i + 1;
    }
  }

  /** Behind FIRST, a message weighs at most the one of its LAST. */
  lemma {:induction false} TailWeight(q: seq<Packet>, k: Key)
    requires InMessageOrder(q)
    requires forall i :: 0 <= i < |q| && q[i].header.octopus && KeyOf(q[i]) == k ==> q[i].header.pos in {Mid, Last}
    ensures TotalWeight(q, k) <= 1
  {
    if q != [] {
      var t := q[1..];
      assert forall i :: 0 <= i < |t| ==> t[i] == q[i + 1];
      if Weight(q[0], k) > 0 {
        forall i | 0 <= i < |t| && t[i].header.octopus ensures KeyOf(t[i]) != k {
          assert !Same(q[0], q[i + 1]);
        }
        WeightZero(t, k);
      } else {
        TailWeight(t, k);
      }
    }
  }

  lemma LegalIsAdmitted(l: Limits, r: Run, p: Packet)
    requires Inv(l, r) && Legal(r.past, p)
    ensures Admits(l, r.state, p)
  {
    hide IsValid, RegisterOk, MarksOk, TableOk, Accepts, InMessageOrder, Contiguous;
    var h, q, k := r.past, r.state.queue, KeyOf(p);
    assert forall i :: 0 <= i < |q| ==> q[i] == h.accepted[|h.marks| + i];
    if p.header.octopus && p.header.pos == Solo { WeightZero(q, k); }
    if p.header.octopus && p.header.pos == Last {
      forall x | x in q && x.header.octopus && KeyOf(x) == k ensures x.header.pos != Solo {
        var i :| 0 <= i < |q| && q[i] == x;
        assert OfOpen(h, h.accepted[|h.marks| + i]);
      }
    }
  }

  lemma OfferKeepsMarks(h: Past, p: Packet, accepted: bool)
    requires MarksOk(h)
    ensures MarksOk(Offered(h, p, accepted))
  {
    hide Whole, LastMarked;
    if accepted {
      forall i | 0 <= i < |h.marks| ensures RuleAt(Offered(h, p, true), i) {
        assert RuleAt(h, i) && (h.accepted + [p])[i] == h.accepted[i];
        WholeAppend(h.accepted, [p], i, h.depth[i]);
        LastMarkedAppend(h.accepted, [p], h.marks[..i], h.accepted[i].header.port);
      }
    } else {
      forall i | 0 <= i < |h.marks| ensures RuleAt(Offered(h, p, false), i) {
        assert RuleAt(h, i);
      }
    }
  }

  /** A packet is offered; where `enqueue` would abort, the run ends. */
  function Offer(l: Limits, r: Run, p: Packet): Run {
    if EnqueueAborts(l, r.state, p) || p.header.threshold >= |Row(r.state, p.header.port, -1)| then r
    else Run(Enqueued(l, r.state, p), Offered(r.past, p, Accepts(l, r.state, p)))
  }

  lemma OfferKeeps(l: Limits, r: Run, p: Packet)
    requires Inv(l, r) && Legal(r.past, p)
    ensures Inv(l, Offer(l, r, p))
  {
    hide IsValid, Accepts, TableOk, ArrivalsOk, MarksOk, LastMarked, Admits;
    LegalIsAdmitted(l, r, p);
    EnqueueKeeps(l, r.state, p);
    var h, s := r.past, r.state;
    OfferKeepsMarks(h, p, Accepts(l, s, p));
    if Accepts(l, s, p) {
      HeadersOfArrivals(h);
      NoteDropperKeepsTable(l, s, h.accepted, p);
      AcceptedKeepsArrivals(h, p);
      forall port ensures LastMarked(h.accepted + [p], h.marks, port) == LastMarked(h.accepted, h.marks, port) {
        LastMarkedAppend(h.accepted, [p], h.marks, port);
      }
      assert (h.accepted + [p])[|h.marks|..] == h.accepted[|h.marks|..] + [p];
    } else {
      RefusedKeepsArrivals(h, p);
    }
  }

  lemma HeadersOfArrivals(h: Past)
    requires ArrivalsOk(h)
    ensures HeadersOk(h.accepted)
  {
  }

  /** The past after the head left. */
  function Departed(h: Past, marked: bool): Past {
    h.(marks := h.marks + [marked], depth := h.depth + [|h.accepted|])
  }

  /** The head leaves; where `dequeuefront` would abort, the run ends. */
  function Leave(r: Run, now: nat, share: nat): Run
    requires r.state.queue != []
  {
    var s := r.state;
    if FrontAborts(s) || s.queue[0].header.priority >= |Row(s, s.queue[0].header.port, 0)| then r
    else
      var f := Leaving(s, now, share);
      Run(f.rest, Departed(r.past, f.marked))
  }

  /** Behind any packet, its message has at most its LAST left. */
  lemma TailOfHead(a: seq<Packet>, d: nat, q: seq<Packet>, k: Key)
    requires InMessageOrder(a) && d < |a| && q == a[d + 1..] && a[d].header.octopus && KeyOf(a[d]) == k
    ensures TotalWeight(q, k) <= 1
    ensures TotalWeight(q, k) > 0 <==> exists e: nat :: d < e < |a| && Same(a[d], a[e]) && a[e].header.pos == Last
  {
    assert forall i :: 0 <= i < |q| ==> q[i] == a[d + 1 + i];
    forall i | 0 <= i < |q| && q[i].header.octopus && KeyOf(q[i]) == k ensures q[i].header.pos in {Mid, Last} {
      assert Same(a[d], a[d + 1 + i]);
    }
    TailWeight(q, k);
    if TotalWeight(q, k) > 0 {
      var i := WeightWitness(q, k);
      assert Same(a[d], a[d + 1 + i]);
    }
    forall e: nat | d < e < |a| && Same(a[d], a[e]) && a[e].header.pos == Last ensures TotalWeight(q, k) > 0 {
      assert q[e - d - 1] == a[e];
      WeightAt(q, e - d - 1, k);
    }
  }

  /** The head's message weighs two exactly when it is whole. */
  lemma HeadWeight(h: Past, q: seq<Packet>)
    requires ArrivalsOk(h) && |h.marks| < |h.accepted| && q == h.accepted[|h.marks|..] && q[0].header.octopus
    requires q[0].header.pos == Solo ==> TotalWeight(q, KeyOf(q[0])) == 2
    ensures TotalWeight(q, KeyOf(q[0])) == 2 <==> Whole(h.accepted, |h.marks|, |h.accepted|)
  {
    hide Contiguous, AllSeen, OpenIsLatest, HeadersOk;
    var a, d, k := h.accepted, |h.marks|, KeyOf(q[0]);
    assert q[1..] == a[d + 1..];
    TailOfHead(a, d, q[1..], k);
    if a[d].header.pos == First {
      forall e: nat | d < e < |a| && Same(a[d], a[e]) && a[e].header.pos == Last ensures Closes(a, d, e) {
      }
    }
  }

  /** The mark of the head follows the rule. */
  lemma LeaveMark(l: Limits, r: Run, now: nat, share: nat)
    requires Inv(l, r) && r.state.queue != []
    ensures !FrontAborts(r.state)
    ensures r.state.queue[0].header.priority < |Row(r.state, r.state.queue[0].header.port, 0)|
    ensures MarksOk(Departed(r.past, Leaving(r.state, now, share).marked))
  {
    hide Decides, CountDeparture, LastMarked, Whole, TableOk, ArrivalsOk;
    FrontKeeps(l, r.state, now, share);
    var s, h := r.state, r.past;
    var p, a, d := s.queue[0], h.accepted, |h.marks|;
    var g := Departed(h, Leaving(s, now, share).marked);
    assert p == a[d];
    if p.header.octopus {
      HeadWeight(h, s.queue);
      assert Count(s, KeyOf(p)) == TotalWeight(s.queue, KeyOf(p));
    }
    forall i | 0 <= i < |g.marks| ensures RuleAt(g, i) {
      if i < d {
        assert RuleAt(h, i) && g.marks[..i] == h.marks[..i];
      } else {
        assert g.marks[..i] == h.marks;
      }
    }
  }

  lemma LeaveRegister(l: Limits, r: Run, now: nat, share: nat)
    requires Inv(l, r) && r.state.queue != []
    ensures RegisterOk(Leave(r, now, share))
  {
    hide Decides, CountDeparture, TableOk, IsValid, ArrivalsOk, MarksOk;
    FrontKeeps(l, r.state, now, share);
    var h, d, f := r.past, |r.past.marks|, Leaving(r.state, now, share);
    var marks := h.marks + [f.marked];
    assert h.accepted[d] == r.state.queue[0] && marks[..d] == h.marks;
    forall port ensures InDrop(f.rest, port) == LastMarked(h.accepted, marks, port) {
      assert InDrop(r.state, port) == LastMarked(h.accepted, h.marks, port);
    }
  }

  lemma LeaveKeeps(l: Limits, r: Run, now: nat, share: nat)
    requires Inv(l, r) && r.state.queue != []
    ensures Inv(l, Leave(r, now, share))
  {
    hide Decides, CountDeparture, LastMarked, Whole, TableOk, IsValid, RegisterOk, MarksOk, ArrivalsOk;
    LeaveRegister(l, r, now, share);
    FrontKeeps(l, r.state, now, share);
    HeadersOfArrivals(r.past);
    FrontKeepsTable(r.state, r.past.accepted, now, share);
    LeaveMark(l, r, now, share);
    ArrivalsIgnoreMarks(r.past, Leaving(r.state, now, share).marked);
  }

  lemma ArrivalsIgnoreMarks(h: Past, m: bool)
    requires ArrivalsOk(h)
    ensures ArrivalsOk(Departed(h, m))
  {
  }

  // ----- every run -----

  datatype Event = Arrives(packet: Packet) | Leaves(now: nat, share: nat)

  function Initial(): Run {
    Run(State([], map[], map[], map[]), Past([], [], [], map[], {}))
  }

  lemma InitialInv(l: Limits)
    ensures Inv(l, Initial())
  {
  }

  /** The state after any events; an arrival that breaks the sending rule is not part of a run. */
  function After(l: Limits, es: seq<Event>): Run {
    if es == [] then Initial() else Next(l, After(l, es[..|es| - 1]), es[|es| - 1])
  }

  function Next(l: Limits, r: Run, e: Event): Run {
    match e
    case Arrives(p) => if Legal(r.past, p) then Offer(l, r, p) else r
    case Leaves(now, share) => if r.state.queue == [] then r else Leave(r, now, share)
  }

  lemma {:induction false} RunKeepsInv(l: Limits, es: seq<Event>)
    ensures Inv(l, After(l, es))
  {
    hide Inv, Legal, Offer, Leave;
    if es == [] {
      InitialInv(l);
    } else {
      var r := After(l, es[..|es| - 1]);
      RunKeepsInv(l, es[..|es| - 1]);
      match es[|es| - 1]
      case Arrives(p) => if Legal(r.past, p) { OfferKeeps(l, r, p); }
      case Leaves(now, share) => if r.state.queue != [] { LeaveKeeps(l, r, now, share); }
    }
  }

  /** The rule behind all marks: on every run a departed packet whose message was not whole was
      marked exactly when the last mark on its port was for its number, or nothing had been
      marked there and its number is 0. */
  lemma MarksFollowRule(l: Limits, es: seq<Event>)
    ensures MarksOk(After(l, es).past)
  {
    hide After, MarksOk;
    RunKeepsInv(l, es);
  }

  /** Marking is all or nothing: on every run, whatever other messages are numbered, any two
      departed packets of a message with a number other than 0 carry the same mark, and a mark
      means SOLO or that FIRST and LAST were both queued when FIRST left. */
  lemma MarkingIsAllOrNothing(l: Limits, es: seq<Event>)
    ensures AllOrNothing(After(l, es).past) && MarkedWereWhole(After(l, es).past)
  {
    hide After, AllOrNothing, MarkedWereWhole, ArrivalsOk, MarksOk;
    RunKeepsInv(l, es);
    RuleIsAllOrNothing(After(l, es).past);
  }

  /** The counters are exact and no assertion fails in any state of any run. */
  lemma CountersAreExact(l: Limits, es: seq<Event>, k: Key)
    ensures var s := After(l, es).state;
      && Count(s, k) == TotalWeight(s.queue, k) && (k in s.counter <==> TotalWeight(s.queue, k) > 0)
      && (s.queue != [] ==> !FrontAborts(s))
  {
    hide After, ArrivalsOk, RegisterOk, TableOk, MarksOk;
    RunKeepsInv(l, es);
    var s := After(l, es).state;
    if s.queue != [] { FrontKeeps(l, s, 0, 0); }
  }

  /** No legal arrival makes the enqueue assertion fail on any run. */
  lemma ArrivalsNeverAbort(l: Limits, es: seq<Event>, p: Packet)
    ensures Legal(After(l, es).past, p) ==> !EnqueueAborts(l, After(l, es).state, p)
  {
    hide After, Inv, Legal, EnqueueAborts;
    RunKeepsInv(l, es);
    if Legal(After(l, es).past, p) {
      LegalIsAdmitted(l, After(l, es), p);
      StatesAreValid(l, After(l, es));
      EnqueueKeeps(l, After(l, es).state, p);
    }
  }

  lemma StatesAreValid(l: Limits, r: Run)
    requires Inv(l, r)
    ensures IsValid(l, r.state)
  {
  }

  /** At the decision point the mark is what the history of accepted droppers says. */
  lemma DecisionsMatchHistory(l: Limits, es: seq<Event>, now: nat, share: nat)
    ensures var r := After(l, es);
      r.state.queue != [] && r.state.queue[0].header.octopus && Count(r.state, KeyOf(r.state.queue[0])) == 2 ==>
        var p := r.state.queue[0];
        Leave(r, now, share).past == Departed(r.past,
          now - p.arrival >= p.header.slack && (p.header.bitrate > share || Overtaken(r.past.accepted, p)))
  {
    hide After, LastMarked, TableOk, CountDeparture, Decides, Overtaken, RegisterOk, MarksOk;
    RunKeepsInv(l, es);
    var r := After(l, es);
    if r.state.queue != [] && r.state.queue[0].header.octopus && Count(r.state, KeyOf(r.state.queue[0])) == 2 {
      FrontKeeps(l, r.state, now, share);
      HeadersOfArrivals(r.past);
      DecisionMatchesHistory(r.state, r.past.accepted, now, share);
    }
  }

  // ----- message number 0 -----

  /** In every state: where nothing has been marked on a port, a packet that is no decision point
      is marked exactly when its number is 0. */
  lemma NumberZeroIsMarked(s: State, now: nat, share: nat)
    requires s.queue != [] && !FrontAborts(s)
    requires s.queue[0].header.priority < |Row(s, s.queue[0].header.port, 0)|
    requires s.queue[0].header.octopus && s.queue[0].header.port !in s.inDrop && Count(s, KeyOf(s.queue[0])) != 2
    ensures Leaving(s, now, share).marked <==> s.queue[0].header.msgNo == 0
  {
  }

  /** For every run and every message: two departed packets of it carry different marks exactly
      when its number is 0, it was whole and let through, and the last mark on its port, if any,
      was for number 0 too. */
  lemma MarksDifferIff(l: Limits, es: seq<Event>, i: nat, j: nat)
    ensures var h := After(l, es).past;
      i < j < |h.marks| <= |h.accepted| && |h.depth| == |h.marks| && Same(h.accepted[i], h.accepted[j]) ==>
        (h.marks[i] != h.marks[j] <==>
          && h.accepted[i].header.msgNo == 0 && Whole(h.accepted, i, h.depth[i]) && !h.marks[i]
          && LastMarked(h.accepted, h.marks[..i], h.accepted[i].header.port) == 0)
  {
    hide After, ArrivalsOk, RuleAt, Whole, LastMarked;
    RunKeepsInv(l, es);
    var h := After(l, es).past;
    if i < j < |h.marks| && Same(h.accepted[i], h.accepted[j]) {
      SameMarkIff(h, i, j);
      if Exposed(h, i) { ExposedIsZero(h, i); }
    }
  }

  function ZeroPacket(pos: Position): Packet {
    Packet(0, 1, Header(true, 0, 0, pos, 0, 0, false, 0, 0))
  }

  /** The run of message number 0 after its three packets have arrived, and after FIRST left. */
  function ZeroQueued(): Run {
    var f, m, e := ZeroPacket(First), ZeroPacket(Mid), ZeroPacket(Last);
    Run(State([f, m, e], map[KeyOf(f) := 2], map[], map[]), Past([f, m, e], [], [], map[], {KeyOf(f)}))
  }

  function ZeroLetThrough(): Run {
    var f, m, e := ZeroPacket(First), ZeroPacket(Mid), ZeroPacket(Last);
    Run(State([m, e], map[KeyOf(f) := 1], map[], map[0 := seq(PRIORITIES, _ => 0)]),
        Past([f, m, e], [false], [3], map[], {KeyOf(f)}))
  }

  lemma ZeroStarts(l: Limits)
    requires l == Limits(0, 0)
    ensures var f, k := ZeroPacket(First), KeyOf(ZeroPacket(First));
      Next(l, Initial(), Arrives(f)) == Run(State([f], map[k := 1], map[], map[]), Past([f], [], [], map[0 := 0], {k}))
  {
  }

  lemma ZeroArrives(l: Limits)
    requires l == Limits(0, 0)
    ensures var f, m, e := ZeroPacket(First), ZeroPacket(Mid), ZeroPacket(Last);
      Next(l, Next(l, Next(l, Initial(), Arrives(f)), Arrives(m)), Arrives(e)) == ZeroQueued()
  {
    ZeroStarts(l);
    var f, m, e := ZeroPacket(First), ZeroPacket(Mid), ZeroPacket(Last);
    var k := KeyOf(f);
    var r1 := Run(State([f], map[k := 1], map[], map[]), Past([f], [], [], map[0 := 0], {k}));
    var r2 := Run(State([f, m], map[k := 1], map[], map[]), Past([f, m], [], [], map[0 := 0], {k}));
    assert Next(l, r1, Arrives(m)) == r2;
  }

  lemma ZeroLeaves(l: Limits)
    ensures Next(l, ZeroQueued(), Leaves(0, 0)) == ZeroLetThrough()
    ensures Next(l, ZeroLetThrough(), Leaves(0, 0)).past.marks == [false, true]
  {
    var zeros := seq(PRIORITIES, _ => 0);
    assert Latest(zeros, 0) == -1 && Latest(zeros, 1) == 0;
    assert ZeroQueued().state.queue[1..] == ZeroLetThrough().state.queue;
  }

  /** A run in which message number 0 is split: FIRST, MID and LAST are queued, FIRST is let
      through, and then MID is marked. */
  lemma NumberZeroSplits()
    ensures var es := [Arrives(ZeroPacket(First)), Arrives(ZeroPacket(Mid)), Arrives(ZeroPacket(Last)),
                       Leaves(0, 0), Leaves(0, 0)];
      After(Limits(0, 0), es).past.marks == [false, true]
  {
    hide Next, ZeroQueued, ZeroLetThrough, ZeroPacket;
    var l := Limits(0, 0);
    var es := [Arrives(ZeroPacket(First)), Arrives(ZeroPacket(Mid)), Arrives(ZeroPacket(Last)),
               Leaves(0, 0), Leaves(0, 0)];
    ZeroArrives(l);
    ZeroLeaves(l);
    assert es[..5] == es;
    forall n | 0 < n <= 5 ensures After(l, es[..n]) == Next(l, After(l, es[..n - 1]), es[n - 1]) {
      assert es[..n][..n - 1] == es[..n - 1];
    }
    assert After(l, es[..0]) == Initial();
    assert After(l, es[..1]) == Next(l, Initial(), es[0]);
    assert After(l, es[..3]) == ZeroQueued();
  }
}

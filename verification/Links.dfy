/** The trace-driven link of `mm-link` as a value: one function per member function. */
module Links {
  import opened Packets
  import opened Disciplines
  import opened Schedules
  import opened RateWindow

  /** What a link is built from and never changes. */
  datatype Setup<!Q> = Setup(schedule: seq<nat>, repeat: bool, disc: Discipline<Q>)

  /** The past of a link: what arrived, what was written out or thrown away, the bytes sent,
      the departures since the queue was last found empty, and for each opportunity used the
      bytes that had arrived before it and the bytes that had arrived and not been thrown away
      when it ended. */
  datatype History = History(
    arrivals: seq<Packet>, written: seq<Packet>, discarded: seq<Packet>,
    served: nat, busy: seq<Departure>, offered: seq<int>, net: seq<int>)

  datatype Link<Q> = Link(
    cursor: Cursor, queue: Q, transit: Packet, left: nat, output: seq<Packet>,
    trace: seq<Departure>, rate: int, hist: History)

  ghost predicate ValidSetup<Q(!new)>(c: Setup<Q>) {
    && ValidSchedule(c.schedule) && Lawful(c.disc)
    && forall i :: 0 <= i < |c.schedule| ==> c.schedule[i] < NEVER
  }

  predicate Fits(p: Packet) {
    0 < p.size <= PACKET_SIZE
  }

  function Queued<Q>(c: Setup<Q>, s: Link<Q>): seq<Packet> {
    c.disc.contents(s.queue)
  }

  /** Everything the inner loop asserts about packets, except their arrival times. */
  ghost predicate Ready<Q>(c: Setup<Q>, s: Link<Q>) {
    && c.disc.valid(s.queue)
    && (forall p :: p in Queued(c, s) ==> Fits(p))
    && s.left <= s.transit.size <= PACKET_SIZE
  }

  /** Every queued packet, and the one in transit, arrived before time t. */
  ghost predicate ArrivedBefore<Q>(c: Setup<Q>, s: Link<Q>, t: nat) {
    && (forall p :: p in Queued(c, s) ==> p.arrival < t)
    && (s.left > 0 ==> s.transit.arrival < t)
  }

  function Time<Q>(c: Setup<Q>, s: Link<Q>): nat
    requires InRange(c.schedule, s.cursor)
  {
    TimeOf(c.schedule, s.cursor)
  }

  function NetBytes(h: History): int {
    Bytes(h.arrivals) - Bytes(h.discarded)
  }

  /** Takes the next packet from the queue unless one is already in transit. */
  function Load<Q>(c: Setup<Q>, s: Link<Q>): Link<Q> {
    if s.left > 0 then s
    else
      var r := c.disc.dequeue(s.queue);
      s.(queue := r.rest, transit := r.packet, left := r.packet.size,
         hist := s.hist.(discarded := s.hist.discarded + r.before + r.after))
  }

  /** Records that the packet in transit has left completely at time t. */
  function Depart<Q>(s: Link<Q>, t: nat): Link<Q> {
    s.(output := s.output + [s.transit],
       rate := Rate(s.trace, t, s.transit.size),
       trace := Record(s.trace, t, s.transit.size),
       hist := s.hist.(busy := s.hist.busy + [Departure(t, s.transit.size)]))
  }

  /** Sends n bytes of the packet in transit. */
  function Send<Q>(s: Link<Q>, n: nat, t: nat): Link<Q>
    requires n <= s.left
  {
    var v := s.(left := s.left - n, hist := s.hist.(served := s.hist.served + n));
    if v.left == 0 then Depart(v, t) else v
  }

  function Idle<Q>(s: Link<Q>): Link<Q> {
    s.(trace := [], rate := UNKNOWN_RATE, hist := s.hist.(busy := []))
  }

  lemma LoadReady<Q(!new)>(c: Setup<Q>, s: Link<Q>)
    requires Lawful(c.disc) && Ready(c, s) && (s.left > 0 || Queued(c, s) != [])
    ensures Ready(c, Load(c, s)) && Load(c, s).left > 0
  {
    if s.left == 0 {
      assert DequeueLaw(c.disc, s.queue);
      var r := c.disc.dequeue(s.queue);
      assert r.packet in Queued(c, s);
    }
  }

  lemma LoadArrivedBefore<Q(!new)>(c: Setup<Q>, s: Link<Q>, t: nat)
    requires Lawful(c.disc) && Ready(c, s) && (s.left > 0 || Queued(c, s) != []) && ArrivedBefore(c, s, t)
    ensures ArrivedBefore(c, Load(c, s), t)
  {
    if s.left == 0 {
      assert DequeueLaw(c.disc, s.queue);
      var r := c.disc.dequeue(s.queue);
      assert r.packet in Queued(c, s);
    }
  }

  /** The inner loop: spends b bytes of an opportunity at time t. */
  ghost function Drain<Q(!new)>(c: Setup<Q>, s: Link<Q>, b: nat, t: nat): (r: Link<Q>)
    requires Lawful(c.disc) && Ready(c, s)
    ensures Ready(c, r) && r.cursor == s.cursor
    decreases b
  {
    if b == 0 then s
    else if s.left == 0 && Queued(c, s) == [] then Idle(s)
    else
      LoadReady(c, s);
      var u := Load(c, s);
      var n := Min(b, u.left);
      Drain(c, Send(u, n, t), b - n, t)
  }

  function CloseOpportunity<Q>(h: History, r: Link<Q>): Link<Q> {
    r.(hist := r.hist.(offered := h.offered + [Bytes(h.arrivals)], net := h.net + [NetBytes(r.hist)]))
  }

  /** One pass of the outer loop. */
  ghost function Opportunity<Q(!new)>(c: Setup<Q>, s: Link<Q>): (r: Link<Q>)
    requires ValidSetup(c) && Ready(c, s) && InRange(c.schedule, s.cursor)
    ensures Ready(c, r) && r.cursor == Advance(c.schedule, c.repeat, s.cursor)
  {
    var next := Advance(c.schedule, c.repeat, s.cursor);
    var r := Drain(c, s.(cursor := next), PACKET_SIZE, Time(c, s));
    CloseOpportunity(s.hist, r)
  }

  ghost predicate CursorOk<Q>(c: Setup<Q>, s: Link<Q>) {
    InRange(c.schedule, s.cursor)
  }

  /** `rationalize`: uses every opportunity up to the given time. */
  ghost function Rationalize<Q(!new)>(c: Setup<Q>, s: Link<Q>, now: nat): (r: Link<Q>)
    requires ValidSetup(c) && Ready(c, s) && CursorOk(c, s) && now < NEVER
    ensures Ready(c, r) && CursorOk(c, r) && Time(c, r) > now
    decreases if s.cursor.finished then 0 else 1, Max(0, now + 1 - s.cursor.base),
              |c.schedule| - s.cursor.next
  {
    if Time(c, s) <= now then
      NextIndex(s.cursor.next, |c.schedule|);
      Rationalize(c, Opportunity(c, s), now)
    else s
  }

  /** Puts a packet into the queue and notes what the queue lost by it. */
  function Enqueued<Q>(c: Setup<Q>, s: Link<Q>, p: Packet): Link<Q> {
    var q := c.disc.enqueue(s.queue, p);
    s.(queue := q, hist := s.hist.(
       arrivals := s.hist.arrivals + [p],
       discarded := s.hist.discarded + Missing(Queued(c, s), p, c.disc.contents(q))))
  }

  /** `read_packet` once the size has been checked. */
  ghost function Arrive<Q(!new)>(c: Setup<Q>, s: Link<Q>, p: Packet): Link<Q>
    requires ValidSetup(c) && Ready(c, s) && CursorOk(c, s) && p.arrival < NEVER
  {
    Enqueued(c, Rationalize(c, s, p.arrival), p)
  }

  /** `write_packets` */
  function Flush<Q>(s: Link<Q>): Link<Q> {
    s.(output := [], hist := s.hist.(written := s.hist.written + s.output))
  }
}

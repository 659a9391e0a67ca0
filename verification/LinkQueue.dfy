/** `LinkQueue` as the object it is: fields updated in place by nested loops. */
module LinkQueues {
  import opened Packets
  import opened Disciplines
  import opened Schedules
  import opened RateWindow
  import opened Links
  import opened LinkRuns
  import opened LinkWaits

  class LinkQueue<Q(!new)> {
    const schedule: seq<nat>
    const repeat: bool
    const disc: Discipline<Q>

    var nextDelivery: nat
    var baseTimestamp: nat
    var finished: bool
    var queue: Q
    var transit: Packet
    var left: nat
    var output: seq<Packet>
    var trace: seq<Departure>
    var rate: int
    ghost var hist: History

    ghost function Parts(): Setup<Q> {
      Setup(schedule, repeat, disc)
    }

    ghost function State(): Link<Q>
      reads this
    {
      Link(Cursor(nextDelivery, baseTimestamp, finished), queue, transit, left, output,
           trace, rate, hist)
    }

    ghost predicate Valid()
      reads this
    {
      ValidSetup(Parts()) && Inv(Parts(), State())
    }

    constructor (schedule: seq<nat>, repeat: bool, disc: Discipline<Q>, queue: Q)
      requires ValidSetup(Setup(schedule, repeat, disc))
      requires disc.valid(queue) && disc.contents(queue) == []
      ensures Valid() && Parts() == Setup(schedule, repeat, disc) && State() == LinkRuns.Start(Parts(), queue)
    {
      hide Inv, ValidSetup;
      this.schedule, this.repeat, this.disc, this.queue := schedule, repeat, disc, queue;
      nextDelivery, baseTimestamp, finished := 0, 0, false;
      transit, left, output := NO_PACKET, 0, [];
      trace, rate := [], UNKNOWN_RATE;
      hist := History([], [], [], 0, [], [], []);
      new;
      StartInv(Parts(), queue);
    }

    function NextDeliveryTime(): nat
      requires nextDelivery < |schedule|
      reads this
    {
      if finished then NEVER else schedule[nextDelivery] + baseTimestamp
    }

    method UseADeliveryOpportunity()
      requires nextDelivery < |schedule|
      modifies this`nextDelivery, this`baseTimestamp, this`finished
      ensures State() == old(State()).(cursor := Schedules.Advance(schedule, repeat, old(State().cursor)))
    {
      nextDelivery := (nextDelivery + 1) % |schedule|;
      if nextDelivery == 0 {
        if repeat {
          baseTimestamp := baseTimestamp + schedule[|schedule| - 1];
        } else {
          finished := true;
        }
      }
    }

    /** Measures the rate over the window and lets the window slide. */
    method MeasureRate(t: nat, size: nat)
      modifies this`trace, this`rate
      ensures rate == Rate(old(trace), t, size) && trace == Record(old(trace), t, size)
    {
      if |trace| >= MIN_SAMPLE - 1 {
        var total, i := 0, 0;
        while i < |trace|
          invariant 0 <= i <= |trace| && total + Total(trace[i..]) == Total(trace)
        {
          assert trace[i..][1..] == trace[i + 1..];
          total := total + trace[i].size;
          i := i + 1;
        }
        assert trace[i..] == [];
        total := total - trace[0].size + size;
        if t == trace[0].time {
          rate := UNKNOWN_RATE;
        } else {
          rate := total * 8 / (t - trace[0].time);
        }
      } else {
        rate := UNKNOWN_RATE;
      }
      trace := trace + [Departure(t, size)];
      while |trace| >= MIN_SAMPLE && trace[0].time < WrappedLimit(t)
        invariant Trim(trace, WrappedLimit(t)) == Record(old(trace), t, size)
        invariant rate == Rate(old(trace), t, size)
        decreases |trace|
      {
        trace := trace[1..];
      }
    }

    /** Dequeues the next packet into the empty transit slot. */
    method Load()
      requires left == 0
      modifies this`queue, this`transit, this`left, this`hist
      ensures State() == Links.Load(Parts(), old(State()))
    {
      var r := disc.dequeue(queue);
      queue, transit, left := r.rest, r.packet, r.packet.size;
      hist := hist.(discarded := hist.discarded + r.before + r.after);
    }

    /** The packet in transit is out: it goes to the output and its departure is recorded. */
    method Depart(t: nat)
      modifies this`output, this`trace, this`rate, this`hist
      ensures State() == Links.Depart(old(State()), t)
    {
      hide Rate, Record;
      output := output + [transit];
      MeasureRate(t, transit.size);
      hist := hist.(busy := hist.busy + [Departure(t, transit.size)]);
    }

    /** Sends n bytes of the packet in transit at time t. */
    method Send(n: nat, t: nat)
      requires n <= left
      modifies this`left, this`output, this`trace, this`rate, this`hist
      ensures State() == Links.Send(old(State()), n, t)
    {
      hide Rate, Record, Links.Depart;
      left := left - n;
      hist := hist.(served := hist.served + n);
      if left == 0 {
        Depart(t);
      }
    }

    /** The queue was found empty: the rest of the opportunity is wasted. */
    method GoIdle()
      modifies this`trace, this`rate, this`hist
      ensures State() == Idle(old(State()))
    {
      trace := [];
      rate := UNKNOWN_RATE;
      hist := hist.(busy := []);
    }

    /** Makes sure a packet is in transit; its arrival time and size are what the loop asserts. */
    method Fetch(t: nat)
      requires Lawful(disc) && Ready(Parts(), State()) && ArrivedBefore(Parts(), State(), t)
      requires left > 0 || Queued(Parts(), State()) != []
      modifies this`queue, this`transit, this`left, this`hist
      ensures State() == Links.Load(Parts(), old(State()))
      ensures Ready(Parts(), State()) && ArrivedBefore(Parts(), State(), t) && left > 0
    {
      hide Lawful, Links.Load, Ready, ArrivedBefore;
      LoadReady(Parts(), State());
      LoadArrivedBefore(Parts(), State(), t);
      if left == 0 {
        Load();
      } else {
        LoadHeld(Parts(), State());
      }
      ReadyToSend(Parts(), State(), t);
      assert transit.arrival <= t;
      assert left <= PACKET_SIZE;
      assert left > 0;
      assert left <= transit.size;
    }

    /** Spends one delivery opportunity of 1504 bytes at time t. */
    method Spend(t: nat)
      requires Lawful(disc) && Ready(Parts(), State()) && ArrivedBefore(Parts(), State(), t)
      modifies this`queue, this`transit, this`left, this`output, this`trace, this`rate, this`hist
      ensures State() == Drain(Parts(), old(State()), PACKET_SIZE, t)
    {
      hide Lawful, Links.Send, Links.Load, Drain, Ready, ArrivedBefore;
      var bytesLeft: nat := PACKET_SIZE;
      ghost var goal := Drain(Parts(), State(), PACKET_SIZE, t);
      while bytesLeft > 0
        invariant Ready(Parts(), State()) && ArrivedBefore(Parts(), State(), t)
        invariant Drain(Parts(), State(), bytesLeft, t) == goal
      {
        ghost var s := State();
        DrainUnfolds(Parts(), s, bytesLeft, t);
        if left == 0 && disc.contents(queue) == [] {
          GoIdle();
          return;
        }
        Fetch(t);
        var amount := Min(bytesLeft, left);
        SendReady(Parts(), State(), amount, t);
        SendArrivedBefore(Parts(), State(), amount, t);
        Send(amount, t);
        bytesLeft := bytesLeft - amount;
      }
      DrainUnfolds(Parts(), State(), 0, t);
    }

    /** Burns the next delivery opportunity. */
    method BurnOpportunity()
      requires Valid() && !finished
      modifies this
      ensures Valid() && State() == Opportunity(Parts(), old(State()))
    {
      hide ValidSetup, Lawful, Drain, IsServiceCurve, Conserved, WindowOk, CursorAt, Ready, ArrivedBefore;
      ghost var s := State();
      OpportunityKeeps(Parts(), s);
      SetupIsLawful(Parts());
      var t := NextDeliveryTime();
      UseADeliveryOpportunity();
      GoodIgnores(Parts(), s, t, State().cursor, s.hist.offered, s.hist.net, t);
      Spend(t);
      hist := hist.(offered := s.hist.offered + [Bytes(s.hist.arrivals)],
                    net := s.hist.net + [NetBytes(hist)]);
      assert State() == Opportunity(Parts(), s);
    }

    /** Emulates the link up to `now`. */
    method Rationalize(now: nat)
      requires Valid() && now < NEVER
      modifies this
      ensures Valid() && State() == Links.Rationalize(Parts(), old(State()), now)
      ensures NextDeliveryTime() > now
    {
      hide Lawful, Opportunity, Ready, ArrivedBefore, Conserved, WindowOk, IsServiceCurve, CursorAt;
      ghost var goal := Links.Rationalize(Parts(), State(), now);
      while NextDeliveryTime() <= now
        invariant Valid() && Links.Rationalize(Parts(), State(), now) == goal
        decreases if finished then 0 else 1, Max(0, now + 1 - baseTimestamp), |schedule| - nextDelivery
      {
        NextIndex(nextDelivery, |schedule|);
        BurnOpportunity();
      }
    }

    /** Takes a packet off the wire: refused when oversized, otherwise queued, with what the
        queue lost by it reported as the drop record. */
    method ReadPacket(now: nat, size: nat, header: Header) returns (read: bool, missingPackets: int, missingBytes: int)
      requires Valid() && now < NEVER && size > 0
      requires var p := Packet(now, size, header);
        size <= PACKET_SIZE ==> disc.admits(Links.Rationalize(Parts(), State(), now).queue, p)
      modifies this
      ensures Valid() && read == (size <= PACKET_SIZE)
      ensures !read ==> State() == old(State())
      ensures read ==> State() == Arrive(Parts(), old(State()), Packet(now, size, header))
      ensures read ==>
        var before := Queued(Parts(), Links.Rationalize(Parts(), old(State()), now));
        var lost := Missing(before, Packet(now, size, header), disc.contents(queue));
        missingPackets == |lost| && missingBytes == Bytes(lost)
    {
      hide Drain, Opportunity, Subseq, Window, IsServiceCurve, Conserved, WindowOk, CursorAt, Bytes;
      if size > PACKET_SIZE {
        return false, 0, 0;
      }
      ghost var s := State();
      var p := Packet(now, size, header);
      ArriveKeeps(Parts(), s, p);
      Rationalize(now);
      ghost var r := State();
      var bytesBefore, packetsBefore := Bytes(disc.contents(queue)), |disc.contents(queue)|;
      ghost var before := disc.contents(queue);
      queue := disc.enqueue(queue, p);
      LawfulEnqueue(disc, r.queue, p);
      MissingBytes(before, p, disc.contents(queue));
      hist := hist.(arrivals := hist.arrivals + [p],
                    discarded := hist.discarded + Missing(before, p, disc.contents(queue)));
      assert State() == Arrive(Parts(), s, p);
      assert |disc.contents(queue)| <= packetsBefore + 1;
      assert Bytes(disc.contents(queue)) <= bytesBefore + size;
      read := true;
      missingPackets := packetsBefore + 1 - |disc.contents(queue)|;
      missingBytes := bytesBefore + size - Bytes(disc.contents(queue));
    }

    /** Milliseconds to sleep, cut down to 32 bits: zero exactly when the first opportunity after
        `now` lies a multiple of 2^32 ms ahead. */
    method WaitTime(now: nat) returns (wait: int)
      requires Valid() && now < NEVER
      modifies this
      ensures Valid() && State() == Links.Rationalize(Parts(), old(State()), now)
      ensures NextDeliveryTime() > now && wait == LinkWaits.WaitTime(Parts(), old(State()), now)
      ensures forall k :: IsNext(schedule, repeat, |old(hist).net|, now, k) ==>
        && wait == (DeliveryTime(schedule, repeat, k) - now) % U32
        && (wait == 0 <==> (DeliveryTime(schedule, repeat, k) - now) % U32 == 0)
    {
      hide Inv, ValidSetup, Links.Rationalize, IsNext, DeliveryTime;
      ghost var s := State();
      Rationalize(now);
      if NextDeliveryTime() <= now {
        wait := 0;
      } else {
        wait := (NextDeliveryTime() - now) % U32;
      }
      forall k | IsNext(schedule, repeat, |s.hist.net|, now, k)
        ensures wait == (DeliveryTime(schedule, repeat, k) - now) % U32
      {
        WaitIsGap(Parts(), s, now, k);
      }
    }

    /** Hands over everything that is ready to go. */
    method WritePackets() returns (sent: seq<Packet>)
      requires Valid()
      modifies this`output, this`hist
      ensures Valid() && sent == old(output) && State() == Flush(old(State()))
    {
      hide Inv, ValidSetup;
      FlushKeeps(Parts(), State());
      sent := [];
      ghost var s := State();
      while output != []
        invariant sent + output == s.output && unchanged(`hist)
        decreases |output|
      {
        sent := sent + [output[0]];
        output := output[1..];
      }
      hist := hist.(written := hist.written + sent);
      assert State() == Flush(s);
    }
  }

  lemma SetupIsLawful<Q(!new)>(c: Setup<Q>)
    requires ValidSetup(c)
    ensures Lawful(c.disc)
  {
  }

  /** One round of the inner loop. */
  lemma DrainUnfolds<Q(!new)>(c: Setup<Q>, s: Link<Q>, b: nat, t: nat)
    requires Lawful(c.disc) && Ready(c, s)
    ensures b == 0 ==> Drain(c, s, b, t) == s
    ensures b > 0 && s.left == 0 && Queued(c, s) == [] ==> Drain(c, s, b, t) == Idle(s)
    ensures b > 0 && (s.left > 0 || Queued(c, s) != []) ==>
      var u := Links.Load(c, s);
      var n := Min(b, u.left);
      Ready(c, Links.Send(u, n, t)) && Drain(c, s, b, t) == Drain(c, Links.Send(u, n, t), b - n, t)
  {
    hide Lawful, Links.Load, Links.Send;
    if b > 0 && (s.left > 0 || Queued(c, s) != []) {
      LoadReady(c, s);
      SendReady(c, Links.Load(c, s), Min(b, Links.Load(c, s).left), t);
    }
  }

  /** A packet in transit satisfies what the inner loop asserts of it. */
  lemma ReadyToSend<Q>(c: Setup<Q>, s: Link<Q>, t: nat)
    requires Ready(c, s) && ArrivedBefore(c, s, t)
    ensures s.left > 0 ==> s.transit.arrival <= t
    ensures s.left <= s.transit.size <= PACKET_SIZE
  {
  }

  lemma LoadHeld<Q>(c: Setup<Q>, s: Link<Q>)
    requires s.left > 0
    ensures Links.Load(c, s) == s
  {
  }

  lemma SendArrivedBefore<Q>(c: Setup<Q>, s: Link<Q>, n: nat, t: nat)
    requires ArrivedBefore(c, s, t) && n <= s.left
    ensures ArrivedBefore(c, Links.Send(s, n, t), t)
  {
  }
}

/** Byte and packet accounting of `DroppingPacketQueue`, and the two simplest disciplines. */
module DroppingQueues {
  import opened Packets
  import opened Disciplines

  /** Limits of a queue; zero means no limit. */
  datatype Limits = Limits(bytes: nat, packets: nat)

  predicate GoodWith(l: Limits, bytes: nat, packets: nat) {
    (l.bytes != 0 ==> bytes <= l.bytes) && (l.packets != 0 ==> packets <= l.packets)
  }

  predicate WithinLimits(l: Limits, q: seq<Packet>) {
    GoodWith(l, Bytes(q), |q|)
  }

  /** Zero switches a limit off; otherwise it may be reached and not exceeded. */
  lemma LimitsMean(l: Limits, q: seq<Packet>)
    ensures WithinLimits(l, q) <==> (l.bytes == 0 || Bytes(q) <= l.bytes) && (l.packets == 0 || |q| <= l.packets)
  {
  }

  lemma BytesSlice(q: seq<Packet>, i: nat, j: nat)
    requires i <= j <= |q|
    ensures Bytes(q[j..]) <= Bytes(q[i..])
    decreases j - i
  {
    if i < j {
      assert q[i..][1..] == q[i + 1..];
      BytesSlice(q, i + 1, j);
    }
  }

  // ----- the infinite queue -----

  function Infinite(): Discipline<seq<Packet>> {
    Discipline(
      (q: seq<Packet>) => true,
      (q: seq<Packet>, p: Packet) => true,
      (q: seq<Packet>) => q,
      (q: seq<Packet>, p: Packet) => q + [p],
      (q: seq<Packet>) => if q == [] then Removal([], NO_PACKET, [], q) else Removal([], q[0], [], q[1..]))
  }

  /** The infinite queue is a discipline that loses nothing. */
  lemma InfiniteIsLossless()
    ensures Lawful(Infinite()) && Lossless(Infinite())
  {
  }

  class InfinitePacketQueue {
    var internalQueue: seq<Packet>
    var sizeInBytes: int
    var sizeInPackets: int

    /** The counters are the sums they stand for. */
    ghost predicate Valid()
      reads this
    {
      sizeInBytes == Bytes(internalQueue) && sizeInPackets == |internalQueue|
    }

    constructor ()
      ensures Valid() && internalQueue == []
    {
      internalQueue, sizeInBytes, sizeInPackets := [], 0, 0;
    }

    method Enqueue(p: Packet)
      requires Valid()
      modifies this
      ensures Valid() && internalQueue == Infinite().enqueue(old(internalQueue), p) == old(internalQueue) + [p]
    {
      BytesAppend(internalQueue, p);
      sizeInBytes := sizeInBytes + p.size;
      sizeInPackets := sizeInPackets + 1;
      internalQueue := internalQueue + [p];
    }

    method Dequeue() returns (p: Packet)
      requires Valid() && internalQueue != []
      modifies this
      ensures Valid() && [p] + internalQueue == old(internalQueue)
      ensures var r := Infinite().dequeue(old(internalQueue)); p == r.packet && internalQueue == r.rest
    {
      p := internalQueue[0];
      internalQueue := internalQueue[1..];
      sizeInBytes := sizeInBytes - p.size;
      sizeInPackets := sizeInPackets - 1;
    }
  }

  // ----- drop-head -----

  /** Drops from the head until the limits are met. */
  function DropHead(l: Limits, q: seq<Packet>): seq<Packet> {
    if WithinLimits(l, q) || q == [] then q else DropHead(l, q[1..])
  }

  /** What drop-head keeps is the longest suffix within the limits. */
  lemma {:induction false} DropHeadKeepsLongest(l: Limits, q: seq<Packet>)
    ensures IsSuffix(DropHead(l, q), q) && WithinLimits(l, DropHead(l, q))
    ensures forall i :: 0 <= i < |q| - |DropHead(l, q)| ==> !WithinLimits(l, q[i..])
  {
    if !WithinLimits(l, q) && q != [] {
      var d := DropHead(l, q[1..]);
      DropHeadKeepsLongest(l, q[1..]);
      assert forall i :: 0 <= i < |q| ==> q[1..][i..] == q[i + 1..];
      forall i | 0 <= i < |q| - |d| ensures !WithinLimits(l, q[i..]) {
        if i == 0 { assert q[0..] == q; } else { assert q[1..][i - 1..] == q[i..]; }
      }
    }
  }

  /** A longer suffix than the one kept is never within the limits: there is no better choice. */
  lemma DropHeadIsMaximal(l: Limits, q: seq<Packet>, s: seq<Packet>)
    requires IsSuffix(s, q) && WithinLimits(l, s)
    ensures |s| <= |DropHead(l, q)|
  {
  }

  /** `dequeue` asserts the limits after every single removal, so with assertions on, the drop
      loop survives only if each of its removals already meets them. */
  ghost predicate AssertionsHold(l: Limits, q: seq<Packet>) {
    WithinLimits(l, q) || q == [] || (WithinLimits(l, q[1..]) && AssertionsHold(l, q[1..]))
  }

  /** The loop survives exactly when it removes at most one packet. */
  lemma OneDropIff(l: Limits, q: seq<Packet>)
    ensures AssertionsHold(l, q) <==> |q| - |DropHead(l, q)| <= 1
  {
    if !WithinLimits(l, q) && q != [] {
      DropHeadKeepsLongest(l, q[1..]);
      assert q[1..][0..] == q[1..];
      assert WithinLimits(l, q[1..]) ==> DropHead(l, q[1..]) == q[1..];
    }
  }

  /** The assertion survives the enqueue of p into a queue within its limits exactly when there is
      no byte limit, or the newcomer exceeds it by no more than the size of the packet at the head. */
  lemma AssertionsHoldIff(l: Limits, q: seq<Packet>, p: Packet)
    requires WithinLimits(l, q)
    ensures AssertionsHold(l, q + [p]) <==> WithinLimits(l, q + [p]) || WithinLimits(l, (q + [p])[1..])
    ensures AssertionsHold(l, q + [p]) <==> l.bytes == 0 || Bytes(q) + p.size <= l.bytes + (q + [p])[0].size
  {
    var r := q + [p];
    BytesAppend(q, p);
    assert Bytes(r) == r[0].size + Bytes(r[1..]) && |r[1..]| == |q|;
    assert WithinLimits(l, r[1..]) ==> AssertionsHold(l, r[1..]);
  }

  /** With a packet limit alone the assertion always survives; with a byte limit it need not. */
  lemma PacketLimitDropsOne(l: Limits, q: seq<Packet>, p: Packet)
    requires l.bytes == 0 && WithinLimits(l, q)
    ensures AssertionsHold(l, q + [p])
  {
    hide AssertionsHold;
    AssertionsHoldIff(l, q, p);
  }

  lemma ByteLimitMayDropTwo(h: Header)
    ensures var small, big := Packet(0, 600, h), Packet(0, 1200, h);
      WithinLimits(Limits(1300, 0), [small, small]) && !AssertionsHold(Limits(1300, 0), [small, small] + [big])
  {
    var small, big := Packet(0, 600, h), Packet(0, 1200, h);
    var q := [small, small] + [big];
    assert q == [small, small, big] && q[1..] == [small, big] && q[1..][1..] == [big];
    assert [small, small][1..] == [small] && [small][1..] == [] && [big][1..] == [];
    assert Bytes([big]) == 1200 && Bytes([small]) == 600;
    assert Bytes(q[1..]) == 1800 && Bytes(q) == 2400 && Bytes([small, small]) == 1200;
  }

  function DropHeadDiscipline(l: Limits): Discipline<seq<Packet>> {
    Discipline(
      (q: seq<Packet>) => WithinLimits(l, q),
      (q: seq<Packet>, p: Packet) => true,
      (q: seq<Packet>) => q,
      (q: seq<Packet>, p: Packet) => DropHead(l, q + [p]),
      (q: seq<Packet>) => if q == [] then Removal([], NO_PACKET, [], q) else Removal([], q[0], [], q[1..]))
  }

  lemma DropHeadIsLawful(l: Limits)
    ensures Lawful(DropHeadDiscipline(l))
  {
    var d := DropHeadDiscipline(l);
    forall q, p | d.valid(q) && d.admits(q, p) ensures EnqueueLaw(d, q, p) {
      DropHeadKeepsLongest(l, q + [p]);
    }
    forall q | d.valid(q) && d.contents(q) != [] ensures DequeueLaw(d, q) {
      assert q == [] + [q[0]] + [] + q[1..];
      BytesSlice(q, 0, 1);
    }
  }

  /** Arrivals go to the back, as much is dropped from the head as the limits demand and no more,
      and departures are from the head. */
  lemma DropHeadBehaves(l: Limits, q: seq<Packet>, p: Packet)
    ensures var r := DropHeadDiscipline(l).enqueue(q, p);
      && IsSuffix(r, q + [p]) && WithinLimits(l, r)
      && forall i :: 0 <= i < |q| + 1 - |r| ==> !WithinLimits(l, (q + [p])[i..])
    ensures q != [] ==> DropHeadDiscipline(l).dequeue(q) == Removal([], q[0], [], q[1..])
  {
    DropHeadKeepsLongest(l, q + [p]);
  }

  /** Drop-head loses packets on arrival only. */
  lemma DropHeadKeepsOnDequeue(l: Limits)
    ensures KeepsOnDequeue(DropHeadDiscipline(l))
  {
  }

  class DropHeadPacketQueue {
    const limits: Limits
    var internalQueue: seq<Packet>
    var sizeInBytes: int
    var sizeInPackets: int

    ghost predicate Counted()
      reads this
    {
      sizeInBytes == Bytes(internalQueue) && sizeInPackets == |internalQueue|
    }

    ghost predicate Valid()
      reads this
    {
      Counted() && WithinLimits(limits, internalQueue)
    }

    constructor (limits: Limits)
      ensures Valid() && internalQueue == [] && this.limits == limits
    {
      this.limits := limits;
      internalQueue, sizeInBytes, sizeInPackets := [], 0, 0;
    }

    /** `accept` */
    method Accept(p: Packet)
      requires Counted()
      modifies this
      ensures Counted() && internalQueue == old(internalQueue) + [p]
    {
      BytesAppend(internalQueue, p);
      sizeInBytes := sizeInBytes + p.size;
      sizeInPackets := sizeInPackets + 1;
      internalQueue := internalQueue + [p];
    }

    method Dequeue() returns (p: Packet)
      requires Counted() && internalQueue != []
      modifies this
      ensures Counted() && p == old(internalQueue)[0] && internalQueue == old(internalQueue)[1..]
      ensures old(Valid()) ==> Valid()
    {
      BytesSlice(internalQueue, 0, 1);
      p := internalQueue[0];
      internalQueue := internalQueue[1..];
      sizeInBytes := sizeInBytes - p.size;
      sizeInPackets := sizeInPackets - 1;
    }

    /** Always accepts, then drops from the head while the limits are exceeded. */
    method Enqueue(p: Packet)
      requires Valid()
      modifies this
      ensures Valid() && internalQueue == DropHeadDiscipline(limits).enqueue(old(internalQueue), p)
      ensures IsSuffix(internalQueue, old(internalQueue) + [p])
      ensures forall i :: 0 <= i < |old(internalQueue)| + 1 - |internalQueue| ==>
        !WithinLimits(limits, (old(internalQueue) + [p])[i..])
    {
      Accept(p);
      while !GoodWith(limits, sizeInBytes, sizeInPackets)
        invariant Counted()
        invariant DropHead(limits, internalQueue) == DropHead(limits, old(internalQueue) + [p])
        decreases |internalQueue|
      {
        var _ := Dequeue();
      }
      DropHeadKeepsLongest(limits, old(internalQueue) + [p]);
    }
  }
}

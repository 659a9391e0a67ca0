/** Packets as the emulated link and its queue disciplines see them. */
module Packets {

  /** Position of a packet inside its message (`PktPos`). */
  datatype Position = First | Last | Mid | Solo

  /** The decoded fields of an Octopus header; `octopus` is false for all other traffic. */
  datatype Header = Header(
    octopus: bool, port: nat, msgNo: nat, pos: Position,
    priority: nat, threshold: nat, preempt: bool, slack: nat, bitrate: nat)

  /** A `QueuedPacket`: its bytes matter only through their number and their header. */
  datatype Packet = Packet(arrival: nat, size: nat, header: Header)

  /** The packet a link holds before the first one has been dequeued. */
  const NO_PACKET := Packet(0, 0, Header(false, 0, 0, Mid, 0, 0, false, 0, 0))

  const PACKET_SIZE: nat := 1504
  const U32: nat := 0x1_0000_0000
  const U64: nat := 0x1_0000_0000_0000_0000

  function Min(a: int, b: int): int {
    if a <= b then a else b
  }

  function Max(a: int, b: int): int {
    if a >= b then a else b
  }

  /** Total size in bytes, the number every `queue_size_in_bytes_` counter must agree with. */
  function Bytes(ps: seq<Packet>): nat {
    if ps == [] then 0 else ps[0].size + Bytes(ps[1..])
  }

  lemma {:induction false} BytesConcat(a: seq<Packet>, b: seq<Packet>)
    ensures Bytes(a + b) == Bytes(a) + Bytes(b)
  {
    if a == [] {
      assert a + b == b;
    } else {
      assert (a + b)[1..] == a[1..] + b;
      BytesConcat(a[1..], b);
    }
  }

  lemma BytesOne(p: Packet)
    ensures Bytes([p]) == p.size
  {
    assert [p][1..] == [];
  }

  lemma BytesAppend(q: seq<Packet>, p: Packet)
    ensures Bytes(q + [p]) == Bytes(q) + p.size
  {
    BytesConcat(q, [p]);
    BytesOne(p);
  }

  lemma ConcatAssoc<T>(a: seq<T>, b: seq<T>, c: seq<T>)
    ensures a + (b + c) == a + b + c
  {
  }

  predicate IsSuffix<T(==)>(a: seq<T>, b: seq<T>) {
    |a| <= |b| && a == b[|b| - |a|..]
  }

  /** `picks` names the positions of `b` that make up `a`, in order. */
  ghost predicate Selects<T>(picks: seq<nat>, a: seq<T>, b: seq<T>) {
    && |picks| == |a|
    && (forall i :: 0 <= i < |a| ==> picks[i] < |b| && a[i] == b[picks[i]])
    && (forall i, j :: 0 <= i < j < |a| ==> picks[i] < picks[j])
  }

  /** `a` is what is left of `b` after deleting some of its elements. */
  ghost predicate Subseq<T>(a: seq<T>, b: seq<T>) {
    exists picks :: Selects(picks, a, b)
  }

  lemma SubseqTrans<T>(a: seq<T>, b: seq<T>, c: seq<T>)
    requires Subseq(a, b) && Subseq(b, c)
    ensures Subseq(a, c)
  {
    var f :| Selects(f, a, b);
    var g :| Selects(g, b, c);
    assert Selects(seq(|a|, i requires 0 <= i < |a| => g[f[i]]), a, c);
  }

  /** Deleting a middle part keeps the order. */
  lemma SubseqDelete<T>(x: seq<T>, y: seq<T>, z: seq<T>)
    ensures Subseq(x + z, x + y + z)
  {
    assert Selects(seq(|x| + |z|, i => if i < |x| then i else i + |y|), x + z, x + y + z);
  }

  lemma SubseqAppend<T>(a: seq<T>, b: seq<T>, c: seq<T>)
    requires Subseq(a, b)
    ensures Subseq(a + c, b + c)
  {
    var f :| Selects(f, a, b);
    assert Selects(f + seq(|c|, i => |b| + i), a + c, b + c);
  }
}

/** What the link asks of an `AbstractPacketQueue`, with the queue's state as a value. */
module Disciplines {
  import opened Packets

  /** One `dequeue`: the packet it returns, the packets it throws away on either side of
      it, and the state it leaves. */
  datatype Removal<Q> = Removal(before: seq<Packet>, packet: Packet, after: seq<Packet>, rest: Q)

  /** The virtual functions of a queue class. `valid` is the invariant of the state, and
      `admits` is what its assertions demand of the next packet. Clock readings that the
      discipline takes by itself are part of its state `Q`. */
  datatype Discipline<!Q> = Discipline(
    valid: Q -> bool, admits: (Q, Packet) -> bool, contents: Q -> seq<Packet>,
    enqueue: (Q, Packet) -> Q, dequeue: Q -> Removal<Q>)

  /** An enqueue refuses the newcomer or drops a (possibly empty) part of the head. */
  ghost predicate EnqueueLaw<Q>(d: Discipline<Q>, q: Q, p: Packet) {
    var c := d.contents(d.enqueue(q, p));
    d.valid(d.enqueue(q, p)) && (IsSuffix(c, d.contents(q) + [p]) || c == d.contents(q))
  }

  /** A dequeue takes a nonempty prefix and returns one packet of it. */
  ghost predicate DequeueLaw<Q>(d: Discipline<Q>, q: Q) {
    var r := d.dequeue(q);
    d.valid(r.rest) && d.contents(q) == r.before + [r.packet] + r.after + d.contents(r.rest)
  }

  ghost predicate Lawful<Q(!new)>(d: Discipline<Q>) {
    && (forall q, p {:trigger EnqueueLaw(d, q, p)} :: d.valid(q) && d.admits(q, p) ==> EnqueueLaw(d, q, p))
    && (forall q {:trigger DequeueLaw(d, q)} :: d.valid(q) && d.contents(q) != [] ==> DequeueLaw(d, q))
  }

  /** A discipline whose dequeues throw nothing away. */
  ghost predicate KeepsOnDequeue<Q(!new)>(d: Discipline<Q>) {
    forall q {:trigger d.dequeue(q)} ::
      d.valid(q) && d.contents(q) != [] ==> d.dequeue(q).before == [] && d.dequeue(q).after == []
  }

  /** A discipline that never throws a packet away. */
  ghost predicate Lossless<Q(!new)>(d: Discipline<Q>) {
    && KeepsOnDequeue(d)
    && forall q, p {:trigger d.enqueue(q, p)} ::
         d.valid(q) && d.admits(q, p) ==> d.contents(d.enqueue(q, p)) == d.contents(q) + [p]
  }

  lemma LawfulDequeue<Q(!new)>(d: Discipline<Q>, q: Q)
    requires Lawful(d) && d.valid(q) && d.contents(q) != []
    ensures DequeueLaw(d, q)
  {
  }

  lemma LawfulEnqueue<Q(!new)>(d: Discipline<Q>, q: Q, p: Packet)
    requires Lawful(d) && d.valid(q) && d.admits(q, p)
    ensures EnqueueLaw(d, q, p)
  {
  }

  /** The packets an enqueue lost, read off the contents before and after it. */
  function Missing(before: seq<Packet>, p: Packet, after: seq<Packet>): seq<Packet> {
    if IsSuffix(after, before + [p]) then (before + [p])[..|before| + 1 - |after|] else [p]
  }
}

/** The bit fields of an Octopus packet: `PacketHeader` over the 32-bit words it copies out of the
    payload, already in host byte order. */
module PacketHeaders {
  import opened Packets
  import Octopus

  datatype Words = Words(ip: bv32, udp: bv32, seqNo: bv32, msgField: bv32, wildcard: bv32)

  predicate IsOctopus(w: Words) {
    (w.ip >> 16) & 0xff == 17 && w.seqNo & 0xa000_0000 == 0
  }

  function PositionOf(msgField: bv32): Position {
    if msgField & 0xc000_0000 == 0x8000_0000 then First
    else if msgField & 0xc000_0000 == 0x4000_0000 then Last
    else if msgField & 0xc000_0000 == 0 then Mid
    else Solo
  }

  function PriorityBits(wildcard: bv32): bv32 {
    (wildcard & 0xe000_0000) >> 29
  }

  function ThresholdBits(wildcard: bv32): bv32 {
    (wildcard & 0x1c00_0000) >> 26
  }

  function SlackBits(wildcard: bv32): bv32 {
    (wildcard & 0x01ff_0000) >> 16
  }

  predicate IsPreempt(wildcard: bv32) {
    wildcard & 0x0200_0000 != 0
  }

  function BitrateBits(wildcard: bv32): bv32 {
    wildcard & 0xffff
  }

  function MsgBits(msgField: bv32): bv32 {
    msgField & 0x1fff_ffff
  }

  function PortBits(udp: bv32): bv32 {
    udp & 0xffff
  }

  function Decode(w: Words): Header {
    Header(IsOctopus(w), PortBits(w.udp) as nat, MsgBits(w.msgField) as nat, PositionOf(w.msgField),
           PriorityBits(w.wildcard) as nat, ThresholdBits(w.wildcard) as nat, IsPreempt(w.wildcard),
           SlackBits(w.wildcard) as nat, BitrateBits(w.wildcard) as nat)
  }

  function PositionBits(pos: Position): bv32 {
    match pos
    case First => 0x8000_0000
    case Last => 0x4000_0000
    case Mid => 0
    case Solo => 0xc000_0000
  }

  /** Packs the fields of the wildcard word. */
  function PackWildcard(priority: bv32, threshold: bv32, preempt: bool, slack: bv32, bitrate: bv32): bv32 {
    (priority << 29) | (threshold << 26) | (if preempt then 0x0200_0000 else 0) | (slack << 16) | bitrate
  }

  /** The wildcard fields are independent and fill the word: each is read back as packed, and
      packing what was read gives the word back. */
  lemma WildcardRoundTrip(priority: bv32, threshold: bv32, preempt: bool, slack: bv32, bitrate: bv32, w: bv32)
    requires priority < 8 && threshold < 8 && slack < 512 && bitrate < 0x1_0000
    ensures var p := PackWildcard(priority, threshold, preempt, slack, bitrate);
      && PriorityBits(p) == priority && ThresholdBits(p) == threshold && IsPreempt(p) == preempt
      && SlackBits(p) == slack && BitrateBits(p) == bitrate
    ensures PackWildcard(PriorityBits(w), ThresholdBits(w), IsPreempt(w), SlackBits(w), BitrateBits(w)) == w
  {
  }

  lemma PositionRoundTrip(pos: Position, msg: bv32)
    requires msg < 0x2000_0000
    ensures var f := PositionBits(pos) | msg;
      PositionOf(f) == pos && MsgBits(f) == msg
  {
  }

  /** Every decoded header has fields in the ranges the router's tables rely on: no packet that
      comes off the wire can leave them. */
  lemma DecodedIsValid(w: Words, arrival: nat, size: nat)
    ensures Octopus.ValidHeader(Packet(arrival, size, Decode(w)))
  {
  }

  /** The second 32-bit word of the addresses and protocol, with the protocol in its second byte. */
  function PackProtocol(high: bv32, protocol: bv32, low: bv32): bv32 {
    (high << 24) | (protocol << 16) | low
  }

  function PackFlags(a: bool, b: bool, c: bool): bv32 {
    (if a then 0x8000_0000 else 0) | (if b then 0x4000_0000 else 0) | (if c then 0x2000_0000 else 0)
  }

  /** A packet is an Octopus packet exactly when it is UDP, protocol 17, and neither the highest nor
      the third highest bit of its sequence word is set. */
  lemma IsOctopusIff(w: Words, high: bv32, protocol: bv32, low: bv32, a: bool, b: bool, c: bool, number: bv32)
    requires high < 0x100 && protocol < 0x100 && low < 0x1_0000 && number < 0x2000_0000
    requires w.ip == PackProtocol(high, protocol, low)
    requires w.seqNo == PackFlags(a, b, c) | number
    ensures IsOctopus(w) <==> protocol == 17 && !a && !c
  {
  }

  /** Decoding reads back every field as it was packed. */
  lemma DecodeReadsBack(w: Words, source: bv32, port: bv32, pos: Position, msg: bv32,
                        priority: bv32, threshold: bv32, preempt: bool, slack: bv32, bitrate: bv32)
    requires source < 0x1_0000 && port < 0x1_0000 && msg < 0x2000_0000
    requires priority < 8 && threshold < 8 && slack < 512 && bitrate < 0x1_0000
    requires w.udp == (source << 16) | port && w.msgField == PositionBits(pos) | msg
    requires w.wildcard == PackWildcard(priority, threshold, preempt, slack, bitrate)
    ensures Decode(w) == Header(IsOctopus(w), port as nat, msg as nat, pos,
                                priority as nat, threshold as nat, preempt, slack as nat, bitrate as nat)
  {
    hide PackWildcard, PositionBits, PositionOf, PriorityBits, ThresholdBits, SlackBits, IsOctopus, IsPreempt,
         BitrateBits, MsgBits, PortBits;
    WildcardRoundTrip(priority, threshold, preempt, slack, bitrate, w.wildcard);
    PositionRoundTrip(pos, msg);
    PortReadsBack(source, port);
  }

  lemma PortReadsBack(source: bv32, port: bv32)
    requires source < 0x1_0000 && port < 0x1_0000
    ensures PortBits((source << 16) | port) == port
  {
  }
}

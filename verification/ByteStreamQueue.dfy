/** The circular byte buffer between two file descriptors. */
module ByteStreamQueues {

  /** The buffer with its two indices; one slot always stays free. */
  datatype Ring = Ring(buffer: seq<char>, push: nat, pop: nat)

  predicate WellFormed(r: Ring) {
    |r.buffer| > 1 && r.push < |r.buffer| && r.pop < |r.buffer|
  }

  /** The bytes waiting, oldest first. */
  function Contents(r: Ring): seq<char>
    requires WellFormed(r)
  {
    if r.pop <= r.push then r.buffer[r.pop..r.push] else r.buffer[r.pop..] + r.buffer[..r.push]
  }

  /** The unsigned difference wraps when `pop` is ahead, and the sum wraps back. */
  function AvailableToPop(r: Ring): int {
    r.push - r.pop + if r.pop > r.push then |r.buffer| else 0
  }

  function AvailableToPush(r: Ring): int {
    r.pop - r.push - 1 + if r.pop > r.push then 0 else |r.buffer|
  }

  function ContiguousToPush(r: Ring): int {
    var n := AvailableToPush(r);
    if r.push + n >= |r.buffer| then |r.buffer| - r.push else n
  }

  function ContiguousToPop(r: Ring): int {
    var n := AvailableToPop(r);
    if r.pop + n >= |r.buffer| then |r.buffer| - r.pop else n
  }

  function Advance(r: Ring, i: nat, n: nat): nat {
    if i + n == |r.buffer| then 0 else i + n
  }

  /** `push` when the descriptor hands over `chunk`; an empty chunk is the end of the file. */
  function Pushed(r: Ring, chunk: seq<char>): Ring
    requires WellFormed(r) && |chunk| <= ContiguousToPush(r)
  {
    if chunk == [] then r
    else Ring(r.buffer[..r.push] + chunk + r.buffer[r.push + |chunk|..], Advance(r, r.push, |chunk|), r.pop)
  }

  /** `pop` when the descriptor takes n bytes. */
  function Popped(r: Ring, n: nat): Ring
    requires WellFormed(r) && n <= ContiguousToPop(r)
  {
    r.(pop := Advance(r, r.pop, n))
  }

  /** The counts are those of a queue of capacity size - 1: full is never taken for empty, there is
      contiguous room exactly when there is room, and the contiguous part is all of it or goes to
      the end of the array. */
  lemma Counts(r: Ring)
    requires WellFormed(r)
    ensures AvailableToPop(r) == |Contents(r)|
    ensures AvailableToPush(r) == |r.buffer| - 1 - |Contents(r)| >= 0
    ensures ContiguousToPush(r) > 0 <==> |Contents(r)| < |r.buffer| - 1
    ensures ContiguousToPop(r) > 0 <==> Contents(r) != []
    ensures 0 <= ContiguousToPush(r) <= |r.buffer| - r.push
    ensures ContiguousToPush(r) == AvailableToPush(r)
      || (ContiguousToPush(r) == |r.buffer| - r.push && ContiguousToPush(r) < AvailableToPush(r))
    ensures ContiguousToPop(r) == |Contents(r)|
      || (ContiguousToPop(r) == |r.buffer| - r.pop && ContiguousToPop(r) < |Contents(r)|)
    ensures 0 <= ContiguousToPop(r) <= |r.buffer| - r.pop && ContiguousToPop(r) <= |Contents(r)|
  {
  }

  /** w is b with the chunk written at index `at`. */
  ghost predicate Wrote(b: seq<char>, w: seq<char>, at: nat, chunk: seq<char>) {
    && |w| == |b| && at + |chunk| <= |b|
    && w[..at] == b[..at] && w[at..at + |chunk|] == chunk && w[at + |chunk|..] == b[at + |chunk|..]
  }

  /** Writing behind what is waiting. */
  lemma WroteStraight(b: seq<char>, w: seq<char>, at: nat, chunk: seq<char>, from: nat)
    requires Wrote(b, w, at, chunk) && from <= at
    ensures w[from..at + |chunk|] == b[from..at] + chunk
  {
    assert w[from..at] == w[..at][from..] == b[..at][from..] == b[from..at];
    assert w[from..at + |chunk|] == w[from..at] + w[at..at + |chunk|];
  }

  /** Writing in the gap below the pop index when what is waiting goes round the end. */
  lemma WroteBelow(b: seq<char>, w: seq<char>, at: nat, chunk: seq<char>, from: nat)
    requires Wrote(b, w, at, chunk) && at + |chunk| <= from <= |b|
    ensures w[from..] == b[from..] && w[..at + |chunk|] == b[..at] + chunk
  {
    var n := at + |chunk|;
    assert w[from..] == w[n..][from - n..] == b[n..][from - n..] == b[from..];
    assert w[..n] == w[..at] + w[at..n];
  }

  /** The contiguous room ends before the pop index and before the end of the array. */
  lemma PushFits(r: Ring, n: nat)
    requires WellFormed(r) && n <= ContiguousToPush(r)
    ensures r.push + n <= |r.buffer| && (r.pop > r.push ==> r.push + n < r.pop)
    ensures r.push + n == |r.buffer| ==> 0 < r.pop <= r.push || n == 0
  {
  }

  lemma PushedFields(r: Ring, chunk: seq<char>)
    requires WellFormed(r) && |chunk| <= ContiguousToPush(r)
    ensures var p := Pushed(r, chunk);
      && Wrote(r.buffer, p.buffer, r.push, chunk) && p.pop == r.pop
      && p.push == if r.push + |chunk| == |r.buffer| && chunk != [] then 0 else r.push + |chunk|
  {
    PushFits(r, |chunk|);
    if chunk == [] { assert r.buffer[r.push..r.push] == chunk; }
  }

  /** A push appends the chunk at the end and nothing else. */
  lemma PushAppends(r: Ring, chunk: seq<char>)
    requires WellFormed(r) && |chunk| <= ContiguousToPush(r)
    ensures WellFormed(Pushed(r, chunk)) && Contents(Pushed(r, chunk)) == Contents(r) + chunk
    ensures |Pushed(r, chunk).buffer| == |r.buffer|
  {
    hide Pushed, AvailableToPush, ContiguousToPush, Wrote;
    PushedFields(r, chunk);
    PushFits(r, |chunk|);
    var w := Pushed(r, chunk).buffer;
    WroteKeepsLength(r.buffer, w, r.push, chunk);
    if r.pop <= r.push {
      WroteStraight(r.buffer, w, r.push, chunk, r.pop);
    } else {
      WroteBelow(r.buffer, w, r.push, chunk, r.pop);
      assert r.buffer[r.pop..] + (r.buffer[..r.push] + chunk) == r.buffer[r.pop..] + r.buffer[..r.push] + chunk;
    }
  }

  lemma WroteKeepsLength(b: seq<char>, w: seq<char>, at: nat, chunk: seq<char>)
    requires Wrote(b, w, at, chunk)
    ensures |w| == |b|
  {
  }

  /** The contiguous bytes end before the push index and before the end of the array. */
  lemma PopFits(r: Ring, n: nat)
    requires WellFormed(r) && n <= ContiguousToPop(r)
    ensures r.pop + n <= |r.buffer| && (r.pop <= r.push ==> r.pop + n <= r.push)
  {
  }

  lemma PopStraight(b: seq<char>, from: nat, n: nat, to: nat)
    requires from + n <= to <= |b|
    ensures b[from..to][..n] == b[from..from + n] && b[from..to][n..] == b[from + n..to]
  {
  }

  lemma PopAround(b: seq<char>, from: nat, n: nat, to: nat)
    requires from + n <= |b| && to <= |b|
    ensures (b[from..] + b[..to])[..n] == b[from..from + n]
    ensures (b[from..] + b[..to])[n..] == if from + n == |b| then b[0..to] else b[from + n..] + b[..to]
  {
  }

  lemma PopDropsAround(r: Ring, n: nat)
    requires WellFormed(r) && r.pop > r.push && r.pop + n <= |r.buffer| && n <= ContiguousToPop(r)
    ensures n <= |Contents(r)| && r.buffer[r.pop..r.pop + n] == Contents(r)[..n]
    ensures WellFormed(Popped(r, n)) && Contents(Popped(r, n)) == Contents(r)[n..]
  {
    hide AvailableToPop, ContiguousToPop;
    PopAround(r.buffer, r.pop, n, r.push);
  }

  lemma PopDropsStraight(r: Ring, n: nat)
    requires WellFormed(r) && r.pop + n <= r.push && n <= ContiguousToPop(r)
    ensures n <= |Contents(r)| && r.buffer[r.pop..r.pop + n] == Contents(r)[..n]
    ensures WellFormed(Popped(r, n)) && Contents(Popped(r, n)) == Contents(r)[n..]
  {
    hide AvailableToPop, ContiguousToPop;
    PopStraight(r.buffer, r.pop, n, r.push);
  }

  /** A pop hands over the oldest bytes and keeps the rest. */
  lemma PopDrops(r: Ring, n: nat)
    requires WellFormed(r) && n <= ContiguousToPop(r)
    ensures r.pop + n <= |r.buffer| && n <= |Contents(r)| && WellFormed(Popped(r, n))
    ensures r.buffer[r.pop..r.pop + n] == Contents(r)[..n]
    ensures Contents(Popped(r, n)) == Contents(r)[n..] && Popped(r, n).buffer == r.buffer
  {
    hide AvailableToPop, ContiguousToPop, Contents;
    PopFits(r, n);
    if r.pop <= r.push {
      PopDropsStraight(r, n);
    } else {
      PopDropsAround(r, n);
    }
  }

  // ----- every interleaving -----

  datatype Op = Reads(chunk: seq<char>) | Writes(count: nat)

  /** The ring with everything that ever went in and came out. */
  datatype Stream = Stream(ring: Ring, pushed: seq<char>, popped: seq<char>)

  /** The poller calls `push` only when there is space and `pop` only when there are bytes; the
      descriptors transfer at most the contiguous length offered. */
  ghost predicate Enabled(s: Stream, op: Op)
    requires WellFormed(s.ring)
  {
    match op
    case Reads(chunk) => |chunk| <= ContiguousToPush(s.ring)
    case Writes(n) => n <= ContiguousToPop(s.ring)
  }

  ghost function Step(s: Stream, op: Op): (r: Stream)
    requires WellFormed(s.ring)
    ensures WellFormed(r.ring)
  {
    if !Enabled(s, op) then s
    else
      match op
      case Reads(chunk) =>
        PushAppends(s.ring, chunk);
        Stream(Pushed(s.ring, chunk), s.pushed + chunk, s.popped)
      case Writes(n) =>
        PopDrops(s.ring, n);
        Stream(Popped(s.ring, n), s.pushed, s.popped + s.ring.buffer[s.ring.pop..s.ring.pop + n])
  }

  ghost function Run(s: Stream, ops: seq<Op>): (r: Stream)
    requires WellFormed(s.ring)
    ensures WellFormed(r.ring)
    decreases |ops|
  {
    if ops == [] then s else Run(Step(s, ops[0]), ops[1..])
  }

  /** Whatever was pushed is what was popped, then what is waiting, within the capacity. */
  ghost predicate Fifo(s: Stream)
    requires WellFormed(s.ring)
  {
    s.pushed == s.popped + Contents(s.ring) && |Contents(s.ring)| <= |s.ring.buffer| - 1
  }

  lemma StepIsFifo(s: Stream, op: Op)
    requires WellFormed(s.ring) && Fifo(s)
    ensures Fifo(Step(s, op)) && |Step(s, op).ring.buffer| == |s.ring.buffer|
  {
    hide Pushed, Popped, Contents, AvailableToPop, AvailableToPush, ContiguousToPop, ContiguousToPush;
    var c := Contents(s.ring);
    if Enabled(s, op) {
      match op
      case Reads(chunk) =>
        PushAppends(s.ring, chunk);
        assert s.popped + (c + chunk) == s.popped + c + chunk;
        Counts(Pushed(s.ring, chunk));
      case Writes(n) =>
        PopDrops(s.ring, n);
        assert c[..n] + c[n..] == c;
        assert s.popped + c[..n] + c[n..] == s.popped + (c[..n] + c[n..]);
        Counts(Popped(s.ring, n));
    }
  }

  lemma {:induction false} RunIsFifo(s: Stream, ops: seq<Op>)
    requires WellFormed(s.ring) && Fifo(s)
    ensures Fifo(Run(s, ops)) && Run(s, ops).popped <= Run(s, ops).pushed
    ensures |Run(s, ops).ring.buffer| == |s.ring.buffer|
    decreases |ops|
  {
    if ops != [] {
      StepIsFifo(s, ops[0]);
      RunIsFifo(Step(s, ops[0]), ops[1..]);
    }
  }

  datatype Result = Success | EndOfFile

  class ByteStreamQueue {
    const buffer: array<char>
    var nextByteToPush: nat
    var nextByteToPop: nat

    ghost function View(): Ring
      reads this, buffer
    {
      Ring(buffer[..], nextByteToPush, nextByteToPop)
    }

    ghost predicate Valid()
      reads this, buffer
    {
      WellFormed(View())
    }

    constructor (size: nat)
      requires size > 1
      ensures Valid() && fresh(buffer) && buffer.Length == size && Contents(View()) == []
    {
      buffer := new char[size](_ => 0 as char);
      nextByteToPush, nextByteToPop := 0, 0;
    }

    method ToPush() returns (contiguous: nat)
      requires Valid()
      ensures contiguous == ContiguousToPush(View())
    {
      Counts(View());
      var available := nextByteToPop - nextByteToPush - 1
                     + if nextByteToPop > nextByteToPush then 0 else buffer.Length;
      contiguous := if nextByteToPush + available >= buffer.Length
                    then buffer.Length - nextByteToPush else available;
    }

    /** Overwrites the array from the push index on. */
    method Fill(chunk: seq<char>)
      requires nextByteToPush + |chunk| <= buffer.Length
      modifies buffer
      ensures buffer[..] == old(buffer[..])[..nextByteToPush] + chunk + old(buffer[..])[nextByteToPush + |chunk|..]
    {
      forall i | 0 <= i < |chunk| {
        buffer[nextByteToPush + i] := chunk[i];
      }
    }

    /** Reads one chunk of at most the contiguous free length. */
    method Push(chunk: seq<char>) returns (result: Result)
      requires Valid() && |Contents(View())| < buffer.Length - 1
      requires |chunk| <= ContiguousToPush(View())
      modifies this`nextByteToPush, buffer
      ensures Valid() && View() == Pushed(old(View()), chunk)
      ensures Contents(View()) == old(Contents(View())) + chunk
      ensures result == if chunk == [] then EndOfFile else Success
    {
      hide Contents;
      ghost var r := View();
      PushAppends(r, chunk);
      Counts(r);
      var contiguous := ToPush();
      assert contiguous > 0;
      if chunk == [] {
        return EndOfFile;
      }
      assert |chunk| <= buffer.Length - nextByteToPush;
      Fill(chunk);
      nextByteToPush := nextByteToPush + |chunk|;
      assert nextByteToPush <= buffer.Length;
      if nextByteToPush == buffer.Length {
        nextByteToPush := 0;
      }
      result := Success;
    }

    /** Writes out `count` of the bytes offered, which are the oldest ones. */
    method Pop(count: nat) returns (written: seq<char>)
      requires Valid() && Contents(View()) != []
      requires 0 < count <= ContiguousToPop(View())
      modifies this`nextByteToPop
      ensures Valid() && View() == Popped(old(View()), count)
      ensures old(Contents(View())) == written + Contents(View()) && |written| == count
    {
      ghost var r := View();
      PopDrops(r, count);
      written := buffer[nextByteToPop..nextByteToPop + count];
      assert written == Contents(r)[..count];
      nextByteToPop := nextByteToPop + count;
      assert nextByteToPop <= buffer.Length;
      if nextByteToPop == buffer.Length {
        nextByteToPop := 0;
      }
    }
  }
}

/** `ChunkedBodyParser`: incremental recognition of a chunked body (section 3.6.1 of RFC 2616). */
module Chunked {
  import opened Strings

  datatype Phase = ChunkHeader | Chunk | Trailer

  /** What is left to look at, and how far the parser has come in the body. */
  datatype Scan = Scan(buffer: string, size: nat, parsed: nat, phase: Phase, trailers: bool)

  /** The only assertion input can violate is the one on the CRLF after a chunk; the other
      failures are exceptions. */
  datatype Error = BadChunkSize | ChunkTooLarge | ChunkCrlfAssertion

  datatype Outcome = Waiting(scan: Scan) | Finished(end: nat) | Broken(error: Error)

  /** What stands before the first c, or everything. */
  function Before(s: string, c: char): string {
    var i := Find(s, [c]);
    if i >= 0 then s[..i] else s
  }

  /** `get_chunk_size` of a header line without its CRLF: extensions and everything after a
      space are ignored, and the number is cut down to 32 bits. */
  function ChunkSize(line: string): Option<nat> {
    match Atoi(Before(Before(line, ';'), ' '), 16)
    case None => None
    case Some(n) => Some(n % 0x1_0000_0000)
  }

  /** The largest chunk size whose sum with 2 does not wrap; for a larger one `substr` throws
      as soon as a byte of the chunk is buffered. */
  const SIZE_LIMIT: nat := 0xffff_fffe

  function Needle(trailers: bool): string {
    if trailers then "\r\n\r\n" else "\r\n"
  }

  /** One step of the loop in `read`, on a nonempty buffer. */
  datatype Move = Stay | Go(next: Scan) | End(at: nat) | Fail(error: Error)

  function Step(s: Scan): Move {
    if s.buffer == [] then Stay
    else match s.phase
      case ChunkHeader =>
        var i := Find(s.buffer, CRLF);
        if i < 0 then Stay
        else (match ChunkSize(s.buffer[..i])
          case None => Fail(BadChunkSize)
          case Some(n) =>
            Go(s.(buffer := s.buffer[i + 2..], size := n, parsed := s.parsed + i + 2,
                  phase := if n == 0 then Trailer else Chunk)))
      case Chunk =>
        if s.size >= SIZE_LIMIT then Fail(ChunkTooLarge)
        else if |s.buffer| < s.size + 2 then Stay
        else if s.buffer[s.size..s.size + 2] != CRLF then Fail(ChunkCrlfAssertion)
        else Go(s.(buffer := s.buffer[s.size + 2..], parsed := s.parsed + s.size + 2, phase := ChunkHeader))
      case Trailer =>
        var i := Find(s.buffer, Needle(s.trailers));
        if i < 0 then Stay else End(s.parsed + i + |Needle(s.trailers)|)
  }

  /** The loop in `read`. */
  function Loop(s: Scan): Outcome
    decreases |s.buffer|
  {
    match Step(s)
    case Stay => Waiting(s)
    case Go(t) => if |t.buffer| < |s.buffer| then Loop(t) else Waiting(s)
    case End(at) => Finished(at)
    case Fail(e) => Broken(e)
  }

  function More(s: Scan, input: string): Scan {
    s.(buffer := s.buffer + input)
  }

  /** If a step can be taken at s, it is the same step with t behind it, and it makes progress. */
  ghost predicate StepIsSame(s: Scan, t: string) {
    match Step(s)
    case Stay => true
    case Go(u) => Step(More(s, t)) == Go(More(u, t)) && |u.buffer| < |s.buffer|
                  && u.parsed + |u.buffer| == s.parsed + |s.buffer|
    case End(at) => Step(More(s, t)) == End(at) && s.parsed < at <= s.parsed + |s.buffer|
    case Fail(e) => Step(More(s, t)) == Fail(e)
  }

  lemma HeaderExtends(s: Scan, t: string)
    requires s.phase == ChunkHeader
    ensures StepIsSame(s, t)
  {
    hide ChunkSize, Find;
    var b, i := s.buffer, Find(s.buffer, CRLF);
    if i >= 0 {
      FindExtend(b, t, CRLF);
      assert (b + t)[..i] == b[..i] && (b + t)[i + 2..] == b[i + 2..] + t;
    }
  }

  lemma ChunkExtends(s: Scan, t: string)
    requires s.phase == Chunk
    ensures StepIsSame(s, t)
  {
    var b := s.buffer;
    if b != [] && s.size < SIZE_LIMIT && |b| >= s.size + 2 {
      assert (b + t)[s.size..s.size + 2] == b[s.size..s.size + 2];
      assert (b + t)[s.size + 2..] == b[s.size + 2..] + t;
    }
  }

  lemma TrailerExtends(s: Scan, t: string)
    requires s.phase == Trailer
    ensures StepIsSame(s, t)
  {
    hide Find;
    if Find(s.buffer, Needle(s.trailers)) >= 0 { FindExtend(s.buffer, t, Needle(s.trailers)); }
  }

  /** A step that can be taken is the same step whatever follows. */
  lemma StepExtends(s: Scan, t: string)
    ensures StepIsSame(s, t)
  {
    hide StepIsSame;
    match s.phase
    case ChunkHeader => HeaderExtends(s, t);
    case Chunk => ChunkExtends(s, t);
    case Trailer => TrailerExtends(s, t);
  }

  /** More input continues where the loop got stuck; an end or a failure stays what it is. */
  lemma {:induction false} LoopExtends(s: Scan, t: string)
    ensures match Loop(s)
      case Waiting(u) => Loop(More(s, t)) == Loop(More(u, t)) && u.parsed + |u.buffer| == s.parsed + |s.buffer|
                         && Step(u) == Stay
      case Finished(at) => Loop(More(s, t)) == Finished(at) && s.parsed < at <= s.parsed + |s.buffer|
      case Broken(e) => Loop(More(s, t)) == Broken(e)
    decreases |s.buffer|
  {
    hide Step;
    StepExtends(s, t);
    match Step(s)
    case Stay =>
    case Go(u) => LoopExtends(u, t);
    case End(at) =>
    case Fail(e) =>
  }

  /** An end that only more input brings lies in that input. */
  lemma StuckEndsLater(s: Scan, t: string)
    requires Step(s) == Stay && Loop(More(s, t)).Finished?
    ensures s.parsed + |s.buffer| < Loop(More(s, t)).end <= s.parsed + |s.buffer| + |t|
  {
    hide ChunkSize, Find;
    var m := More(s, t);
    LoopExtends(m, []);
    assert More(m, []) == m by { assert m.buffer + [] == m.buffer; }
    StepExtends(m, []);
    if s.buffer == [] {
    } else {
      match s.phase
      case ChunkHeader => FindCrosses(s.buffer, t, CRLF); LoopAfterStep(m);
      case Chunk => LoopAfterStep(m);
      case Trailer => FindCrosses(s.buffer, t, Needle(s.trailers));
    }
  }

  lemma LoopAfterStep(m: Scan)
    requires Step(m).Go? && Loop(m).Finished?
    ensures Step(m).next.parsed < Loop(m).end
  {
    hide Step;
    StepExtends(m, []);
    LoopExtends(Step(m).next, []);
  }

  // ----- the parser object: input in pieces, acknowledged piece by piece -----

  datatype Chunker = Chunker(scan: Scan, acked: nat)

  datatype Reply = NeedMore(next: Chunker) | BodyEnds(count: int) | Throws(error: Error)

  function Fresh(trailers: bool): Chunker {
    Chunker(Scan([], 0, 0, ChunkHeader, trailers), 0)
  }

  /** `read`: all of the input belongs to the body, or only its first `count` bytes. */
  function Reading(c: Chunker, input: string): Reply {
    match Loop(More(c.scan, input))
    case Waiting(s) => NeedMore(Chunker(s, c.acked + |input|))
    case Finished(end) => BodyEnds(end - c.acked)
    case Broken(e) => Throws(e)
  }

  /** Between two reads the loop is stuck and everything fed has been acknowledged. */
  ghost predicate Settled(c: Chunker) {
    Step(c.scan) == Stay && c.scan.parsed + |c.scan.buffer| == c.acked
  }

  /** A read keeps the parser settled, and an end lies in the piece just read: the assertion
      that more was parsed than acknowledged holds. */
  lemma ReadSettles(c: Chunker, input: string)
    requires Settled(c)
    ensures match Reading(c, input)
      case NeedMore(d) => Settled(d) && d.acked == c.acked + |input|
      case BodyEnds(n) => 0 < n <= |input|
      case Throws(e) => true
  {
    hide Step;
    LoopExtends(More(c.scan, input), []);
    if Loop(More(c.scan, input)).Finished? { StuckEndsLater(c.scan, input); }
  }

  lemma {:induction false} LoopKeepsTrailers(s: Scan)
    ensures Loop(s).Waiting? ==> Loop(s).scan.trailers == s.trailers
    decreases |s.buffer|
  {
    hide Find, ChunkSize;
    if Step(s).Go? && |Step(s).next.buffer| < |s.buffer| { LoopKeepsTrailers(Step(s).next); }
  }

  /** Whether a Trailer header was sent is fixed for a parser. */
  lemma ReadKeepsTrailers(c: Chunker, input: string)
    ensures Reading(c, input).NeedMore? ==> Reading(c, input).next.scan.trailers == c.scan.trailers
  {
    hide Loop;
    LoopKeepsTrailers(More(c.scan, input));
  }

  lemma FreshNeedsMore(trailers: bool)
    ensures Reading(Fresh(trailers), []) == NeedMore(Fresh(trailers))
  {
  }

  /** Reading a then b is reading a + b: how the body is cut into pieces does not matter. */
  lemma ReadComposes(c: Chunker, a: string, b: string)
    ensures match Reading(c, a)
      case NeedMore(d) =>
        (match Reading(d, b)
         case BodyEnds(n) => Reading(c, a + b) == BodyEnds(|a| + n)
         case _ => Reading(c, a + b) == Reading(d, b))
      case BodyEnds(n) => Reading(c, a + b) == BodyEnds(n)
      case Throws(e) => Reading(c, a + b) == Throws(e)
  {
    hide Step;
    LoopExtends(More(c.scan, a), b);
    assert c.scan.buffer + a + b == c.scan.buffer + (a + b);
    assert More(More(c.scan, a), b) == More(c.scan, a + b);
  }

  // ----- exact framing -----

  /** A chunk as sent: its header line (size, perhaps extensions) and its data. */
  datatype Piece = Piece(line: string, data: string)

  /** The line contains no CRLF, also not across its own end. */
  predicate IsLine(line: string) {
    Find(line + CRLF, CRLF) == |line|
  }

  predicate ValidPiece(p: Piece) {
    IsLine(p.line) && 0 < |p.data| < SIZE_LIMIT && ChunkSize(p.line) == Some(|p.data|)
  }

  function Encode(ps: seq<Piece>): string {
    if ps == [] then [] else ps[0].line + CRLF + ps[0].data + CRLF + Encode(ps[1..])
  }

  /** Chunks of nonzero size, then a last-chunk line of size zero. */
  predicate ValidChunks(ps: seq<Piece>, last: string) {
    (forall i :: 0 <= i < |ps| ==> ValidPiece(ps[i])) && IsLine(last) && ChunkSize(last) == Some(0)
  }

  /** The chunks, the last-chunk line, and a tail that ends with the first occurrence of the
      terminator. */
  predicate ValidBody(ps: seq<Piece>, last: string, tail: string, trailers: bool) {
    && ValidChunks(ps, last)
    && |tail| >= |Needle(trailers)| && Find(tail, Needle(trailers)) == |tail| - |Needle(trailers)|
  }

  function Body(ps: seq<Piece>, last: string, tail: string): string {
    Encode(ps) + last + CRLF + tail
  }

  lemma LineStep(s: Scan, line: string, rest: string)
    requires s.phase == ChunkHeader && s.buffer == line + CRLF + rest && IsLine(line) && ChunkSize(line).Some?
    ensures var n := ChunkSize(line).value;
      Step(s) == Go(s.(buffer := rest, size := n, parsed := s.parsed + |line| + 2,
                       phase := if n == 0 then Trailer else Chunk))
  {
    hide ChunkSize, Find;
    FindExtend(line + CRLF, rest, CRLF);
    assert s.buffer == (line + CRLF) + rest;
    assert s.buffer[..|line|] == line && s.buffer[|line| + 2..] == rest;
  }

  lemma LoopGoes(s: Scan)
    requires Step(s).Go? && |Step(s).next.buffer| < |s.buffer|
    ensures Loop(s) == Loop(Step(s).next)
  {
  }

  lemma BodyCons(ps: seq<Piece>, last: string, tail: string, extra: string)
    requires ps != []
    ensures Body(ps, last, tail) + extra
         == ps[0].line + CRLF + (ps[0].data + CRLF + (Body(ps[1..], last, tail) + extra))
    ensures |Body(ps, last, tail)| == |ps[0].line| + 2 + |ps[0].data| + 2 + |Body(ps[1..], last, tail)|
  {
    var p, e := ps[0], Encode(ps[1..]);
    assert Encode(ps) == p.line + CRLF + p.data + CRLF + e;
    assert p.line + CRLF + p.data + CRLF + e + last + CRLF + tail + extra
        == p.line + CRLF + (p.data + CRLF + (e + last + CRLF + tail + extra));
  }

  /** Past the chunks the loop looks for the terminator in what follows. */
  lemma {:induction false} LoopReachesTail(s: Scan, ps: seq<Piece>, last: string, tail: string)
    requires ValidChunks(ps, last) && s.phase == ChunkHeader && s.buffer == Body(ps, last, tail)
    ensures Loop(s) == Loop(s.(buffer := tail, size := 0, phase := Trailer,
                               parsed := s.parsed + |Body(ps, last, tail)| - |tail|))
    decreases |ps|
  {
    hide ChunkSize, Find, Step;
    if ps == [] {
      assert s.buffer == last + CRLF + tail;
      LineStep(s, last, tail);
      LoopGoes(s);
    } else {
      hide Loop, Body;
      var p, rest := ps[0], Body(ps[1..], last, tail);
      BodyCons(ps, last, tail, []);
      assert Body(ps, last, tail) + [] == Body(ps, last, tail) && rest + [] == rest;
      LineStep(s, p.line, p.data + CRLF + rest);
      LoopGoes(s);
      var t := Step(s).next;
      DataStep(t, p.data, rest);
      LoopGoes(t);
      LoopReachesTail(Step(t).next, ps[1..], last, tail);
    }
  }

  /** A whole body is recognized at its last byte, whatever follows. */
  lemma LoopFindsEnd(s: Scan, ps: seq<Piece>, last: string, tail: string, extra: string)
    requires ValidBody(ps, last, tail, s.trailers)
    requires s.phase == ChunkHeader && s.buffer == Body(ps, last, tail) + extra
    ensures Loop(s) == Finished(s.parsed + |Body(ps, last, tail)|)
  {
    hide ChunkSize, Find, Step, Encode;
    assert Body(ps, last, tail) + extra == Body(ps, last, tail + extra);
    LoopReachesTail(s, ps, last, tail + extra);
    EndStep(s.(buffer := tail + extra, size := 0, phase := Trailer,
               parsed := s.parsed + |Body(ps, last, tail)| - |tail|), tail, extra);
  }

  lemma EndStep(s: Scan, tail: string, extra: string)
    requires s.phase == Trailer && s.buffer == tail + extra && |tail| >= |Needle(s.trailers)|
    requires Find(tail, Needle(s.trailers)) == |tail| - |Needle(s.trailers)|
    ensures Step(s) == End(s.parsed + |tail|)
  {
    hide Find;
    FindExtend(tail, extra, Needle(s.trailers));
  }

  lemma DataStep(s: Scan, data: string, rest: string)
    requires s.phase == Chunk && s.size == |data| < SIZE_LIMIT && s.buffer == data + CRLF + rest
    ensures Step(s) == Go(s.(buffer := rest, parsed := s.parsed + |data| + 2, phase := ChunkHeader))
  {
  }

  /** All pieces, glued together. */
  function Glue(pieces: seq<string>): string {
    if pieces == [] then [] else Glue(pieces[..|pieces| - 1]) + pieces[|pieces| - 1]
  }

  /** The parser after reading pieces one by one, as long as none of them ends the body. */
  function ReadAll(c: Chunker, pieces: seq<string>): Reply {
    if pieces == [] then NeedMore(c)
    else match ReadAll(c, pieces[..|pieces| - 1])
      case NeedMore(d) => Reading(d, pieces[|pieces| - 1])
      case BodyEnds(n) => BodyEnds(n)
      case Throws(e) => Throws(e)
  }

  /** As long as pieces are asked for, reading them one by one is reading them at once. */
  lemma {:induction false} ReadAllIsRead(c: Chunker, pieces: seq<string>)
    requires Settled(c) && ReadAll(c, pieces).NeedMore?
    ensures Reading(c, Glue(pieces)) == ReadAll(c, pieces)
  {
    if pieces == [] {
      assert More(c.scan, []) == c.scan by { assert c.scan.buffer + [] == c.scan.buffer; }
    } else {
      hide Reading, Settled;
      var n := |pieces| - 1;
      ReadAllIsRead(c, pieces[..n]);
      ReadComposes(c, Glue(pieces[..n]), pieces[n]);
    }
  }

  /** Any bytes short of the whole body leave the parser asking for more. */
  lemma PrefixNeedsMore(ps: seq<Piece>, last: string, tail: string, trailers: bool, a: string, b: string)
    requires ValidBody(ps, last, tail, trailers) && a + b == Body(ps, last, tail) && b != []
    ensures Reading(Fresh(trailers), a).NeedMore?
  {
    hide Step, Body, ValidBody;
    var c := Fresh(trailers);
    assert [] + (a + b) == Body(ps, last, tail) + [];
    LoopFindsEnd(More(c.scan, a + b), ps, last, tail, []);
    ReadComposes(c, a, b);
    FreshSettles(trailers);
    ReadSettles(c, a);
  }

  lemma FreshSettles(trailers: bool)
    ensures Settled(Fresh(trailers))
  {
  }

  /** Exact framing: however a body and whatever follows it is cut into pieces, every piece that
      stays short of the body's end is taken whole, and the piece that holds its last byte is
      taken exactly up to that byte. */
  lemma FramingIsExact(ps: seq<Piece>, last: string, tail: string, trailers: bool,
                       pieces: seq<string>, piece: string, extra: string)
    requires ValidBody(ps, last, tail, trailers)
    requires Glue(pieces) + piece == Body(ps, last, tail) + extra
    requires |Glue(pieces)| < |Body(ps, last, tail)|
    ensures ReadAll(Fresh(trailers), pieces).NeedMore?
    ensures ReadAll(Fresh(trailers), pieces + [piece]) == BodyEnds(|Body(ps, last, tail)| - |Glue(pieces)|)
  {
    hide Step, Body, ValidBody, Reading;
    var c, body := Fresh(trailers), Body(ps, last, tail);
    PiecesNeedMore(ps, last, tail, trailers, pieces, piece, extra);
    FreshSettles(trailers);
    ReadAllIsRead(c, pieces);
    ReadComposes(c, Glue(pieces), piece);
    WholeBodyEnds(ps, last, tail, trailers, extra);
    assert (pieces + [piece])[..|pieces|] == pieces;
  }

  lemma WholeBodyEnds(ps: seq<Piece>, last: string, tail: string, trailers: bool, extra: string)
    requires ValidBody(ps, last, tail, trailers)
    ensures Reading(Fresh(trailers), Body(ps, last, tail) + extra) == BodyEnds(|Body(ps, last, tail)|)
  {
    hide Step, Body, ValidBody;
    var c := Fresh(trailers);
    assert [] + (Body(ps, last, tail) + extra) == Body(ps, last, tail) + extra;
    LoopFindsEnd(More(c.scan, Body(ps, last, tail) + extra), ps, last, tail, extra);
  }

  lemma {:induction false} PiecesNeedMore(ps: seq<Piece>, last: string, tail: string, trailers: bool,
                                          pieces: seq<string>, rest: string, extra: string)
    requires ValidBody(ps, last, tail, trailers)
    requires Glue(pieces) + rest == Body(ps, last, tail) + extra && |Glue(pieces)| < |Body(ps, last, tail)|
    ensures ReadAll(Fresh(trailers), pieces).NeedMore?
    decreases |pieces|
  {
    hide Step, Body, ValidBody, Reading;
    if pieces != [] {
      var c, n, body := Fresh(trailers), |pieces| - 1, Body(ps, last, tail);
      var front := Glue(pieces[..n]);
      assert front + (pieces[n] + rest) == Glue(pieces) + rest;
      PiecesNeedMore(ps, last, tail, trailers, pieces[..n], pieces[n] + rest, extra);
      FreshSettles(trailers);
      ReadAllIsRead(c, pieces[..n]);
      ReadComposes(c, front, pieces[n]);
      assert Glue(pieces) == body[..|Glue(pieces)|] by {
        assert (Glue(pieces) + rest)[..|Glue(pieces)|] == (body + extra)[..|Glue(pieces)|];
      }
      PrefixNeedsMore(ps, last, tail, trailers, Glue(pieces), body[|Glue(pieces)|..]);
    }
  }

  /** Chunks with plain hexadecimal sizes and the usual terminator are a valid body. */
  lemma HexChunksAreValid(ps: seq<Piece>)
    requires forall i :: 0 <= i < |ps| ==> 0 < |ps[i].data| < 0xffff_fffe && ps[i].line == Hex(|ps[i].data|)
    ensures ValidBody(ps, "0", CRLF, false)
  {
    hide ChunkSize, Hex, IsLine, Find;
    forall i | 0 <= i < |ps| ensures ValidPiece(ps[i]) { HexLine(|ps[i].data|); }
    assert Hex(0) == "0" by { HexZero(); }
    HexLine(0);
    FindIsFirst(CRLF, CRLF);
    assert At(CRLF, CRLF, 0) by { assert CRLF[0..2] == CRLF; }
  }

  lemma HexZero()
    ensures Hex(0) == "0"
  {
  }

  lemma HexLine(n: nat)
    requires n < SIZE_LIMIT
    ensures IsLine(Hex(n)) && ChunkSize(Hex(n)) == Some(n)
  {
    hide Hex, Atoi, Find;
    HexDigits(n);
    HexRoundTrip(n);
    var h := Hex(n);
    AbsentChar(h, ';');
    AbsentChar(h, ' ');
    FindIsFirst(h + CRLF, CRLF);
    assert At(h + CRLF, CRLF, |h|);
    forall j | 0 <= j < |h| ensures !At(h + CRLF, CRLF, j) {
      assert IsHexDigit(h[j]) && (h + CRLF)[j..j + 2][0] == h[j];
    }
  }

  lemma AbsentChar(s: string, c: char)
    requires c !in s
    ensures Find(s, [c]) == -1
  {
    FindIsFirst(s, [c]);
    forall j ensures !At(s, [c], j) {
      if 0 <= j < |s| { assert s[j..j + 1] == [s[j]] && s[j] in s; }
    }
  }

  // ----- the parser as the object it is -----

  datatype Verdict = Progress | Starve | Terminator | Problem(error: Error)

  /** A round of the loop that moves the parser from `was` to `now` is the modelled step. */
  ghost predicate Told(was: Chunker, verdict: Verdict, now: Chunker) {
    now.acked == was.acked && match Step(was.scan)
      case Stay => verdict == Starve && now == was
      case Go(t) => verdict == Progress && now.scan == t
      case End(at) => verdict == Terminator && now.scan.parsed == at
      case Fail(e) => verdict == Problem(e)
  }

  class ChunkedBodyParser {
    const trailersEnabled: bool
    var parserBuffer: string
    var currentChunkSize: nat
    var ackedSoFar: nat
    var parsedSoFar: nat
    var phase: Phase

    ghost function View(): Chunker
      reads this
    {
      Chunker(Scan(parserBuffer, currentChunkSize, parsedSoFar, phase, trailersEnabled), ackedSoFar)
    }

    constructor (trailersEnabled: bool)
      ensures View() == Fresh(trailersEnabled) && Settled(View())
    {
      this.trailersEnabled := trailersEnabled;
      parserBuffer, currentChunkSize, ackedSoFar, parsedSoFar, phase := [], 0, 0, 0, ChunkHeader;
      new;
      FreshSettles(trailersEnabled);
    }

    /** A chunk header line: its size, and what follows it. */
    method AdvanceHeader() returns (verdict: Verdict)
      requires phase == ChunkHeader && parserBuffer != []
      modifies this`parserBuffer, this`currentChunkSize, this`parsedSoFar, this`phase
      ensures Told(old(View()), verdict, View())
    {
      hide Find, ChunkSize;
      var it := Find(parserBuffer, CRLF);
      if it < 0 {
        return Starve;
      }
      var size := ChunkSize(parserBuffer[..it]);
      if size.None? {
        return Problem(BadChunkSize);
      }
      currentChunkSize := size.value;
      phase := if currentChunkSize == 0 then Trailer else Chunk;
      parsedSoFar := parsedSoFar + it + 2;
      parserBuffer := parserBuffer[it + 2..];
      return Progress;
    }

    /** The data of a chunk and its CRLF. */
    method AdvanceChunk() returns (verdict: Verdict)
      requires phase == Chunk && parserBuffer != []
      modifies this`parserBuffer, this`parsedSoFar, this`phase
      ensures Told(old(View()), verdict, View())
    {
      if currentChunkSize >= SIZE_LIMIT {
        return Problem(ChunkTooLarge);
      }
      if |parserBuffer| < currentChunkSize + 2 {
        return Starve;
      }
      if parserBuffer[currentChunkSize..currentChunkSize + 2] != CRLF {
        return Problem(ChunkCrlfAssertion);
      }
      phase := ChunkHeader;
      parsedSoFar := parsedSoFar + currentChunkSize + 2;
      parserBuffer := parserBuffer[currentChunkSize + 2..];
      return Progress;
    }

    /** The end of the body. */
    method AdvanceTrailer() returns (verdict: Verdict)
      requires phase == Trailer && parserBuffer != []
      modifies this`parsedSoFar
      ensures Told(old(View()), verdict, View())
    {
      hide Find;
      var needle := if trailersEnabled then "\r\n\r\n" else "\r\n";
      var loc := Find(parserBuffer, needle);
      if loc < 0 {
        return Starve;
      }
      parsedSoFar := parsedSoFar + loc + |needle|;
      return Terminator;
    }

    /** One round of the loop in `read`. */
    method Advance() returns (verdict: Verdict)
      modifies this`parserBuffer, this`currentChunkSize, this`parsedSoFar, this`phase
      ensures Told(old(View()), verdict, View())
    {
      if parserBuffer == [] {
        return Starve;
      }
      match phase
      case ChunkHeader => verdict := AdvanceHeader();
      case Chunk => verdict := AdvanceChunk();
      case Trailer => verdict := AdvanceTrailer();
    }

    /** Reads one piece of the body: NeedMore means `npos`. */
    method Read(input: string) returns (reply: Reply)
      requires Settled(View())
      modifies this
      ensures reply == Reading(old(View()), input)
      ensures reply.NeedMore? ==> View() == reply.next && Settled(View())
      ensures reply.BodyEnds? ==> 0 < reply.count <= |input|
    {
      hide Step, Settled;
      ReadSettles(View(), input);
      ghost var c := View();
      parserBuffer := parserBuffer + input;
      ghost var goal := Loop(View().scan);
      var verdict := Progress;
      while verdict == Progress
        invariant ackedSoFar == c.acked
        invariant match verdict
          case Progress => Loop(View().scan) == goal
          case Starve => goal == Waiting(View().scan)
          case Terminator => goal == Finished(parsedSoFar)
          case Problem(e) => goal == Broken(e)
        decreases verdict == Progress, |parserBuffer|
      {
        StepExtends(View().scan, []);
        verdict := Advance();
      }
      match verdict
      case Starve =>
        ackedSoFar := ackedSoFar + |input|;
        var scan := Scan(parserBuffer, currentChunkSize, parsedSoFar, phase, trailersEnabled);
        reply := NeedMore(Chunker(scan, ackedSoFar));
      case Terminator =>
        assert parsedSoFar > ackedSoFar;
        reply := BodyEnds(parsedSoFar - ackedSoFar);
      case Problem(e) =>
        reply := Throws(e);
    }
  }
}

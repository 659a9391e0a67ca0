/** What the chunk parser recognizes, in terms of the bytes alone: exactly the bodies of section
    3.6.1 of RFC 2616, and exactly the bytes that make its assertion fail. */
module ChunkedLanguage {
  import opened Strings
  import opened Chunked

  ghost predicate AllValid(ps: seq<Piece>) {
    forall i :: 0 <= i < |ps| ==> ValidPiece(ps[i])
  }

  lemma AllValidCons(p: Piece, ps: seq<Piece>)
    requires ValidPiece(p) && AllValid(ps)
    ensures AllValid([p] + ps)
  {
    hide ValidPiece;
  }

  /** Valid chunks, then a chunk whose data is followed by two other bytes than CRLF. */
  ghost predicate BadAfter(b: string, ps: seq<Piece>, p: Piece, junk: string, rest: string) {
    && AllValid(ps) && ValidPiece(p) && |junk| == 2 && junk != CRLF
    && b == Encode(ps) + (p.line + CRLF + (p.data + junk + rest))
  }

  /** The bytes of a chunked body up to now contain a chunk without its CRLF. */
  ghost predicate BadBytes(b: string) {
    exists ps, p, junk, rest :: BadAfter(b, ps, p, junk, rest)
  }

  /** The first n bytes are a whole chunked body. */
  ghost predicate IsBody(b: string, n: int, trailers: bool) {
    0 <= n <= |b| && exists ps, last, tail :: ValidBody(ps, last, tail, trailers) && b[..n] == Body(ps, last, tail)
  }

  // ----- one chunk -----

  /** The buffer is a header line, its CRLF and the rest. */
  ghost predicate LineThen(b: string, line: string, rest: string) {
    b == line + CRLF + rest && IsLine(line)
  }

  lemma FirstLine(b: string)
    requires Find(b, CRLF) >= 0
    ensures LineThen(b, b[..Find(b, CRLF)], b[Find(b, CRLF) + 2..])
  {
    hide Find;
    var i := Find(b, CRLF);
    FindIsFirst(b, CRLF);
    var line := b[..i];
    assert b[i..i + 2] == CRLF;
    assert b == line + CRLF + b[i + 2..];
    FindIsFirst(line + CRLF, CRLF);
    assert At(line + CRLF, CRLF, i);
    forall j | At(line + CRLF, CRLF, j) ensures i <= j {
      if j < i {
        AtPrefix(line + CRLF, b[i + 2..], CRLF, j);
      }
    }
  }

  /** Where the loop goes from the start of a chunk: the four ways it can go on. */
  datatype Way = NoLine | NotASize | LastLine(tail: string) | Sized(line: string, n: nat, rest: string)

  function WayOf(b: string): Way {
    var i := Find(b, CRLF);
    if i < 0 then NoLine
    else match ChunkSize(b[..i])
      case None => NotASize
      case Some(n) => if n == 0 then LastLine(b[i + 2..]) else Sized(b[..i], n, b[i + 2..])
  }

  function AtTail(s: Scan, tail: string): Scan
    requires |tail| <= |s.buffer|
  {
    s.(buffer := tail, size := 0, phase := Trailer, parsed := s.parsed + |s.buffer| - |tail|)
  }

  function AtData(s: Scan, n: nat, rest: string): Scan
    requires |rest| <= |s.buffer|
  {
    s.(buffer := rest, size := n, phase := Chunk, parsed := s.parsed + |s.buffer| - |rest|)
  }

  lemma LoopFollowsWay(s: Scan)
    requires s.phase == ChunkHeader
    ensures var w := WayOf(s.buffer);
      && (w.NoLine? ==> Loop(s) == Waiting(s))
      && (w.NotASize? ==> Loop(s) == Broken(BadChunkSize))
      && (w.LastLine? ==> |w.tail| < |s.buffer| && Loop(s) == Loop(AtTail(s, w.tail)))
      && (w.Sized? ==> |w.rest| < |s.buffer| && Loop(s) == Loop(AtData(s, w.n, w.rest)))
  {
    hide Step;
    HeaderSteps(s);
    LoopUnfolds(s);
  }

  lemma HeaderSteps(s: Scan)
    requires s.phase == ChunkHeader
    ensures var w := WayOf(s.buffer);
      && (w.NoLine? ==> Step(s) == Stay)
      && (w.NotASize? ==> Step(s) == Fail(BadChunkSize))
      && (w.LastLine? ==> |w.tail| < |s.buffer| && Step(s) == Go(AtTail(s, w.tail)))
      && (w.Sized? ==> |w.rest| < |s.buffer| && Step(s) == Go(AtData(s, w.n, w.rest)))
  {
    hide Find, ChunkSize;
  }

  lemma LoopUnfolds(s: Scan)
    ensures Step(s) == Stay ==> Loop(s) == Waiting(s)
    ensures Step(s).Go? && |Step(s).next.buffer| < |s.buffer| ==> Loop(s) == Loop(Step(s).next)
    ensures Step(s).End? ==> Loop(s) == Finished(Step(s).at)
    ensures Step(s).Fail? ==> Loop(s) == Broken(Step(s).error)
  {
    hide Step;
  }

  lemma LoopAtData(s: Scan)
    requires s.phase == Chunk
    ensures Loop(s) ==
      if s.buffer == [] then Waiting(s)
      else if s.size >= SIZE_LIMIT then Broken(ChunkTooLarge)
      else if |s.buffer| < s.size + 2 then Waiting(s)
      else if s.buffer[s.size..s.size + 2] != CRLF then Broken(ChunkCrlfAssertion)
      else Loop(s.(buffer := s.buffer[s.size + 2..], parsed := s.parsed + s.size + 2, phase := ChunkHeader))
  {
    hide Loop;
    LoopUnfolds(s);
  }

  lemma LoopAtTail(s: Scan)
    requires s.phase == Trailer
    ensures var i := Find(s.buffer, Needle(s.trailers));
      Loop(s) == if s.buffer == [] || i < 0 then Waiting(s) else Finished(s.parsed + i + |Needle(s.trailers)|)
  {
    hide Loop, Find;
    LoopUnfolds(s);
  }

  lemma EncodeCons(p: Piece, ps: seq<Piece>, more: string)
    ensures Encode([p] + ps) + more == p.line + CRLF + (p.data + CRLF + (Encode(ps) + more))
  {
    assert ([p] + ps)[1..] == ps;
    assert p.line + CRLF + p.data + CRLF + Encode(ps) + more
        == p.line + CRLF + (p.data + CRLF + (Encode(ps) + more));
  }

  /** What the loop has before it when it goes into a chunk of nonzero size. */
  lemma SizedLine(b: string)
    requires WayOf(b).Sized?
    ensures var w := WayOf(b); LineThen(b, w.line, w.rest) && ChunkSize(w.line) == Some(w.n) && w.n > 0
  {
    hide Find, ChunkSize;
    FirstLine(b);
  }

  lemma LastLineSplits(b: string)
    requires WayOf(b).LastLine?
    ensures var i := Find(b, CRLF);
      i >= 0 && LineThen(b, b[..i], WayOf(b).tail) && ChunkSize(b[..i]) == Some(0)
  {
    hide Find, ChunkSize;
    FirstLine(b);
  }

  lemma CutData(rest: string, n: nat)
    requires n + 2 <= |rest|
    ensures rest == rest[..n] + rest[n..n + 2] + rest[n + 2..]
  {
  }

  /** The piece of a chunk that is followed by CRLF. */
  lemma WholePiece(b: string) returns (p: Piece, more: string)
    requires WayOf(b).Sized?
    requires var w := WayOf(b);
      w.n < SIZE_LIMIT && w.n + 2 <= |w.rest|
    ensures var w := WayOf(b);
      && ValidPiece(p) && p.line == w.line && p.data == w.rest[..w.n] && more == w.rest[w.n + 2..]
      && b == p.line + CRLF + (p.data + w.rest[w.n..w.n + 2] + more)
  {
    hide WayOf, ChunkSize, IsLine;
    var w := WayOf(b);
    SizedLine(b);
    CutData(w.rest, w.n);
    p, more := Piece(w.line, w.rest[..w.n]), w.rest[w.n + 2..];
  }

  /** A header line at the head of the buffer decides the way. */
  lemma WayOfLine(b: string, line: string, rest: string)
    requires LineThen(b, line, rest) && ChunkSize(line).Some?
    ensures var n := ChunkSize(line).value;
      WayOf(b) == if n == 0 then LastLine(rest) else Sized(line, n, rest)
  {
    hide Find, ChunkSize;
    FindExtend(line + CRLF, rest, CRLF);
    assert b == (line + CRLF) + rest;
    assert b[..|line|] == line && b[|line| + 2..] == rest;
  }

  // ----- the assertion -----

  lemma BadCons(p: Piece, b: string, whole: string)
    requires ValidPiece(p) && BadBytes(b) && whole == p.line + CRLF + (p.data + CRLF + b)
    ensures BadBytes(whole)
  {
    hide ValidPiece, Encode;
    var ps, q, junk, rest :| BadAfter(b, ps, q, junk, rest);
    AllValidCons(p, ps);
    EncodeCons(p, ps, q.line + CRLF + (q.data + junk + rest));
    assert BadAfter(whole, [p] + ps, q, junk, rest);
  }

  /** If the assertion fails, the bytes are bad. */
  lemma {:induction false} AssertionMeansBad(s: Scan)
    requires s.phase == ChunkHeader && Loop(s) == Broken(ChunkCrlfAssertion)
    ensures BadBytes(s.buffer)
    decreases |s.buffer|
  {
    hide Loop, WayOf, ValidPiece;
    LoopFollowsWay(s);
    match WayOf(s.buffer)
    case NoLine =>
    case NotASize =>
    case LastLine(tail) => LoopAtTail(AtTail(s, tail));
    case Sized(line, n, rest) =>
      LoopAtData(AtData(s, n, rest));
      var p, more := WholePiece(s.buffer);
      if rest[n..n + 2] == CRLF {
        AssertionMeansBad(s.(buffer := more, size := n, parsed := AtData(s, n, rest).parsed + n + 2));
        BadCons(p, more, s.buffer);
      } else {
        assert Encode([]) + s.buffer == s.buffer;
        assert BadAfter(s.buffer, [], p, rest[n..n + 2], more);
      }
  }

  /** Bad bytes make the assertion fail. */
  lemma {:induction false} BadMeansAssertion(s: Scan, ps: seq<Piece>, p: Piece, junk: string, rest: string)
    requires s.phase == ChunkHeader && BadAfter(s.buffer, ps, p, junk, rest)
    ensures Loop(s) == Broken(ChunkCrlfAssertion)
    decreases |ps|
  {
    hide Loop, WayOf, ChunkSize, IsLine, Encode;
    var end := p.line + CRLF + (p.data + junk + rest);
    if ps == [] {
      EncodeNothing(end);
      DataFollows(s, p, junk, rest);
    } else {
      var q, more := ps[0], Encode(ps[1..]) + end;
      assert ps == [q] + ps[1..];
      EncodeCons(q, ps[1..], end);
      DataFollows(s, q, CRLF, more);
      BadMeansAssertion(s.(buffer := more, size := |q.data|, parsed := s.parsed + |s.buffer| - |more|),
                        ps[1..], p, junk, rest);
    }
  }

  lemma EncodeNothing(end: string)
    ensures Encode([]) + end == end
  {
  }

  /** A valid chunk and the two bytes behind it. */
  lemma DataFollows(s: Scan, p: Piece, two: string, more: string)
    requires s.phase == ChunkHeader && ValidPiece(p) && |two| == 2
    requires s.buffer == p.line + CRLF + (p.data + two + more)
    ensures Loop(s) ==
      if two != CRLF then Broken(ChunkCrlfAssertion)
      else Loop(s.(buffer := more, size := |p.data|, parsed := s.parsed + |s.buffer| - |more|))
  {
    hide Loop, WayOf, ChunkSize, IsLine;
    var rest, n := p.data + two + more, |p.data|;
    WayOfLine(s.buffer, p.line, rest);
    LoopFollowsWay(s);
    LoopAtData(AtData(s, n, rest));
    assert rest[n..n + 2] == two && rest[n + 2..] == more;
  }

  /** The assertion on the CRLF after a chunk fails exactly on bad bytes. */
  lemma AssertionIff(trailers: bool, b: string)
    ensures Reading(Fresh(trailers), b) == Throws(ChunkCrlfAssertion) <==> BadBytes(b)
  {
    hide Loop, BadAfter;
    var s := More(Fresh(trailers).scan, b);
    assert s.buffer == b by { assert [] + b == b; }
    if Loop(s) == Broken(ChunkCrlfAssertion) { AssertionMeansBad(s); }
    if BadBytes(b) {
      var ps, p, junk, rest :| BadAfter(b, ps, p, junk, rest);
      BadMeansAssertion(s, ps, p, junk, rest);
    }
  }

  /** Two bytes of data where one was announced: the shortest bad bytes. */
  lemma OneByteTooMany(trailers: bool)
    ensures BadBytes("1\r\nabc")
    ensures Reading(Fresh(trailers), "1\r\nabc") == Throws(ChunkCrlfAssertion)
  {
    hide Loop, BadBytes, Reading, ValidPiece, Encode;
    var p := Piece("1", "a");
    OneIsPiece();
    EncodeNothing("1\r\nabc");
    assert "1\r\nabc" == p.line + CRLF + (p.data + "bc" + "");
    BadIntro("1\r\nabc", [], p, "bc", "");
    AssertionIff(trailers, "1\r\nabc");
  }

  lemma OneIsPiece()
    ensures ValidPiece(Piece("1", "a"))
  {
    hide Hex, ChunkSize, IsLine;
    HexOne();
    HexLine(1);
  }

  lemma HexOne()
    ensures Hex(1) == "1"
  {
  }

  lemma BadIntro(b: string, ps: seq<Piece>, p: Piece, junk: string, rest: string)
    requires BadAfter(b, ps, p, junk, rest)
    ensures BadBytes(b)
  {
  }

  // ----- the end of a body -----

  lemma BodyOfPiece(p: Piece, ps: seq<Piece>, last: string, tail: string)
    ensures Body([p] + ps, last, tail) == p.line + CRLF + (p.data + CRLF + Body(ps, last, tail))
  {
    EncodeCons(p, ps, last + CRLF + tail);
    assert Encode([p] + ps) + (last + CRLF + tail) == Body([p] + ps, last, tail);
    assert Encode(ps) + (last + CRLF + tail) == Body(ps, last, tail);
  }

  lemma BodyConsIsBody(p: Piece, b: string, n: int, trailers: bool, whole: string)
    requires ValidPiece(p) && IsBody(b, n, trailers) && whole == p.line + CRLF + (p.data + CRLF + b)
    ensures IsBody(whole, |p.line| + 2 + |p.data| + 2 + n, trailers)
  {
    hide ValidPiece, Body, Find, IsLine, ChunkSize, Needle;
    var ps, last, tail :| ValidBody(ps, last, tail, trailers) && b[..n] == Body(ps, last, tail);
    var k := |p.line| + 2 + |p.data| + 2 + n;
    BodyOfPiece(p, ps, last, tail);
    assert whole[..k] == p.line + CRLF + (p.data + CRLF + b[..n]);
    assert ValidBody([p] + ps, last, tail, trailers);
  }

  lemma TailIsBody(b: string, tail: string, trailers: bool, i: int)
    requires WayOf(b) == LastLine(tail) && i == Find(tail, Needle(trailers)) >= 0
    ensures IsBody(b, |b| - |tail| + i + |Needle(trailers)|, trailers)
  {
    hide ChunkSize, Find, WayOf, IsLine, IsBody, Body, Needle;
    LastLineSplits(b);
    var m, line := i + |Needle(trailers)|, b[..Find(b, CRLF)];
    assert Needle(trailers) != [] by { NeedleIsText(trailers); }
    FindCut(tail, Needle(trailers));
    CutBehind(line, tail, m);
    OnlyLastLine(line, tail[..m]);
    BodyIntro(b, |line| + 2 + m, trailers, [], line, tail[..m]);
  }

  lemma NeedleIsText(trailers: bool)
    ensures Needle(trailers) != []
  {
  }

  lemma BodyIntro(b: string, n: nat, trailers: bool, ps: seq<Piece>, last: string, tail: string)
    requires ValidBody(ps, last, tail, trailers) && n <= |b| && b[..n] == Body(ps, last, tail)
    ensures IsBody(b, n, trailers)
  {
  }

  lemma CutBehind(line: string, tail: string, m: nat)
    requires m <= |tail|
    ensures (line + CRLF + tail)[..|line| + 2 + m] == line + CRLF + tail[..m]
  {
  }

  lemma OnlyLastLine(line: string, tail: string)
    ensures Body([], line, tail) == line + CRLF + tail
  {
    EncodeNothing(line);
  }

  /** The first match is the first match in the bytes up to its end. */
  lemma FindCut(s: string, pat: string)
    requires pat != [] && Find(s, pat) >= 0
    ensures Find(s, pat) + |pat| <= |s| && Find(s[..Find(s, pat) + |pat|], pat) == Find(s, pat)
  {
    hide Find;
    var i := Find(s, pat);
    FindIsFirst(s, pat);
    var t := s[..i + |pat|];
    assert s == t + s[i + |pat|..];
    FindIsFirst(t, pat);
    AtPrefix(t, s[i + |pat|..], pat, i);
    AtPrefix(t, s[i + |pat|..], pat, Find(t, pat));
  }

  /** Where the loop finds an end, there a body ends. */
  lemma {:induction false} EndMeansBody(s: Scan)
    requires s.phase == ChunkHeader && Loop(s).Finished?
    ensures IsBody(s.buffer, Loop(s).end - s.parsed, s.trailers)
    decreases |s.buffer|
  {
    hide Loop, WayOf, ValidPiece, IsBody, Find;
    LoopFollowsWay(s);
    match WayOf(s.buffer)
    case NoLine =>
    case NotASize =>
    case LastLine(tail) =>
      LoopAtTail(AtTail(s, tail));
      TailIsBody(s.buffer, tail, s.trailers, Find(tail, Needle(s.trailers)));
    case Sized(line, n, rest) =>
      LoopAtData(AtData(s, n, rest));
      var p, more := WholePiece(s.buffer);
      var t := s.(buffer := more, size := n, parsed := AtData(s, n, rest).parsed + n + 2);
      EndMeansBody(t);
      BodyConsIsBody(p, more, Loop(t).end - t.parsed, s.trailers, s.buffer);
  }

  /** The parser ends a body after n bytes exactly when those n bytes are a chunked body. */
  lemma EndIff(trailers: bool, b: string, n: int)
    ensures Reading(Fresh(trailers), b) == BodyEnds(n) <==> IsBody(b, n, trailers)
  {
    hide Loop, ValidBody, Body;
    var s := More(Fresh(trailers).scan, b);
    assert s.buffer == b by { assert [] + b == b; }
    if Loop(s).Finished? { EndMeansBody(s); }
    if IsBody(b, n, trailers) {
      var ps, last, tail :| ValidBody(ps, last, tail, trailers) && b[..n] == Body(ps, last, tail);
      assert b == Body(ps, last, tail) + b[n..];
      LoopFindsEnd(s, ps, last, tail, b[n..]);
    }
  }

  // ----- the plain terminator -----

  /** The plain terminator, last-chunk line and empty line, ends the body there exactly when no
      Trailer header was sent. With one, the parser looks on for two line ends in a row: it ends
      the body at the first ones in what follows, which may belong to the next message, or waits. */
  lemma PlainEndIff(ps: seq<Piece>, last: string, trailers: bool, extra: string)
    requires ValidChunks(ps, last)
    ensures var body, r := Body(ps, last, CRLF), Reading(Fresh(trailers), Body(ps, last, CRLF) + extra);
      && (r == BodyEnds(|body|) <==> !trailers)
      && (trailers ==>
            var i := Find(CRLF + extra, CRLF + CRLF);
            r == if i < 0 then NeedMore(Chunker(Scan(CRLF + extra, 0, |body| - 2, Trailer, true), |body| + |extra|))
                 else BodyEnds(|body| + i + 2))
  {
    hide ChunkSize, Find, Body, Loop, ValidChunks;
    var body := Body(ps, last, CRLF);
    var s := More(Fresh(trailers).scan, body + extra);
    BodyWith(ps, last, extra);
    var t := AtTail(s, CRLF + extra);
    assert s.buffer == Body(ps, last, CRLF + extra);
    LoopReachesTail(s, ps, last, CRLF + extra);
    LoopAtTail(t);
    FindAtOnce(CRLF, extra);
    assert Needle(true) == CRLF + CRLF;
  }

  lemma BodyWith(ps: seq<Piece>, last: string, extra: string)
    ensures Body(ps, last, CRLF) + extra == [] + (Body(ps, last, CRLF) + extra) == Body(ps, last, CRLF + extra)
    ensures |Body(ps, last, CRLF)| >= 4
  {
    hide Encode;
  }

  lemma FindAtOnce(pat: string, extra: string)
    requires pat != []
    ensures Find(pat + extra, pat) == 0
  {
    assert (pat + extra)[..|pat|] == pat;
  }

  /** With a Trailer header, the head of the next pipelined message is taken into the body. */
  lemma NextHeadIsSwallowed()
    ensures Reading(Fresh(true), "0\r\n\r\nHTTP\r\n\r\n") == BodyEnds(13)
  {
    hide Reading, Find, ChunkSize;
    HexZero();
    HexLine(0);
    PlainEndIff([], "0", true, "HTTP\r\n\r\n");
    OnlyLastLine("0", CRLF);
    assert Body([], "0", CRLF) == "0\r\n\r\n";
    assert "0\r\n\r\n" + "HTTP\r\n\r\n" == "0\r\n\r\nHTTP\r\n\r\n";
    var t := CRLF + "HTTP\r\n\r\n";
    assert t == "\r\nHTTP\r\n\r\n";
    FindIsFirst(t, CRLF + CRLF);
    assert At(t, CRLF + CRLF, 6) by { assert t[6..10] == "\r\n\r\n"; }
    forall j | 0 <= j < 6 ensures !At(t, CRLF + CRLF, j) {
      assert t[j..j + 4][2] == t[j + 2];
      assert t[j..j + 4][0] == t[j];
    }
  }
}

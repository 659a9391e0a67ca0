/** A run of the response parser that fails its one assertion. */
module HttpFailures {
  import opened Strings
  import opened HttpMessages
  import opened HttpParsing
  import opened HttpRoundTrip
  import Chunked
  import ChunkedLanguage

  const STATUS_LINE: string := "HTTP/1.1 200 OK"
  const CODING := HttpHeader("Transfer-Encoding", "chunked")

  /** A response whose only chunk announces one byte and brings three. */
  const OVERLONG := Text(STATUS_LINE, [CODING], "1\r\nabc")

  lemma StatusIs200()
    ensures StatusCode(STATUS_LINE) == Some("200")
  {
    hide Split;
    SplitPrefix("HTTP/1.1", "200 OK", ' ');
    SplitPrefix("200", "OK", ' ');
    SplitAtom("OK", ' ');
    assert "HTTP/1.1" + " " + "200 OK" == STATUS_LINE && "200" + " " + "OK" == "200 OK";
  }

  lemma SameIsEquivalent(a: string)
    ensures Equivalent(a, a)
  {
  }

  lemma NoTrailer()
    ensures !Equivalent("Transfer-Encoding", "Trailer")
  {
    assert SkipBlanks("Transfer-Encoding") == "Transfer-Encoding" && SkipBlanks("Trailer") == "Trailer";
  }

  lemma IsPlannedByChunks(requestLine: string)
    requires !IsHead(requestLine)
    ensures PlanFor(true, STATUS_LINE, [CODING], requestLine) == Some(ByChunks(Chunked.Fresh(false)))
  {
    hide Equivalent, Split, StatusCode;
    StatusIs200();
    SameIsEquivalent("Transfer-Encoding");
    SameIsEquivalent("chunked");
    NoTrailer();
    SplitAtom("chunked", ',');
    assert [CODING][1..] == [];
    assert Lookup([CODING], "Transfer-Encoding") == Some("chunked") && Lookup([CODING], "Trailer") == None;
    assert LastToken("chunked") == "chunked";
  }

  lemma NoCrlfIn(s: string)
    requires '\r' !in s
    ensures Chunked.IsLine(s)
  {
    hide Chunked.IsLine;
    IsLineIff(s);
  }

  /** Two events that make the parser abort: a request, and a response that answers it. */
  lemma OverlongChunkAborts(request: Text)
    requires !IsHead(request.firstLine)
    ensures Sessions(true, [Request(request), Input(Print(OVERLONG))]).parser == Failed(ChunkCrlf)
  {
    hide Loop, Step, Chunked.IsLine, PlanFor, Printable, Print, PrintHeaders;
    var es := [Request(request), Input(Print(OVERLONG))];
    var p := Running(true, Print(OVERLONG), NEW_MESSAGE, [], [request]);
    PrintedFirst();
    assert Sessions(true, []) == Session(NewParser(true), [], []);
    assert es[..1] == [Request(request)] && es[..1][..0] == [];
    var s := Sessions(true, es[..1]);
    assert s.parser == Running(true, [], NEW_MESSAGE, [], [request]) by { assert [] + [request] == [request]; }
    assert Append(s.parser, Print(OVERLONG)) == p by { assert [] + Print(OVERLONG) == Print(OVERLONG); }
    assert es[..|es| - 1] == es[..1];
    OverlongParses(p, request);
  }

  lemma PrintedFirst()
    ensures Print(OVERLONG) != []
    ensures Print(OVERLONG) == STATUS_LINE + CRLF + (PrintHeaders([CODING]) + (CRLF + "1\r\nabc"))
  {
  }

  lemma OverlongParses(p: Parser, request: Text)
    requires p == Running(true, Print(OVERLONG), NEW_MESSAGE, [], [request]) && !IsHead(request.firstLine)
    ensures Loop(p) == Failed(ChunkCrlf)
  {
    hide Loop, Step, Chunked.IsLine, PlanFor, Printable, Print, PrintHeaders;
    var body, tail := "1\r\nabc", CRLF + "1\r\nabc";
    PrintedFirst();
    NoCrlfIn(STATUS_LINE);
    FirstLineParses(p, STATUS_LINE, PrintHeaders([CODING]) + tail);
    LoopStep(p);
    var q1 := Step(p).parser;
    CodingIsPrintable();
    HeadersParse(q1, [CODING], tail);
    var q2 := WithHeaders(q1, [CODING], tail);
    assert [] + [CODING] == [CODING] && tail == [] + CRLF + body;
    EmptyLine();
    HeaderLineParses(q2, [], body);
    IsPlannedByChunks(request.firstLine);
    LoopStep(q2);
    BodyAborts(Step(q2).parser);
  }

  lemma HeaderIsLine(h: HttpHeader)
    requires '\r' !in h.key && '\r' !in h.value
    ensures Chunked.IsLine(PrintHeader(h))
  {
    hide Chunked.IsLine;
    NoCrlfIn(PrintHeader(h));
  }

  lemma CodingIsPlain()
    ensures Printable(CODING) && '\r' !in CODING.key && '\r' !in CODING.value
  {
  }

  lemma CodingIsPrintable()
    ensures Printable(CODING) && Chunked.IsLine(PrintHeader(CODING))
  {
    hide Chunked.IsLine, PrintHeader, Printable;
    CodingIsPlain();
    HeaderIsLine(CODING);
  }

  lemma BodyAborts(p: Parser)
    requires p.Running? && p.msg.stage == BodyPending && p.msg.plan == ByChunks(Chunked.Fresh(false))
    requires p.buffer == "1\r\nabc"
    ensures Loop(p) == Failed(ChunkCrlf)
  {
    hide Chunked.Reading;
    ChunkedLanguage.OneByteTooMany(false);
  }
}

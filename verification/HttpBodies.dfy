/** What a message printed by each of the length rules parses to, and what the end of the connection
    does at each point. */
module HttpBodies {
  import opened Strings
  import opened Numbers
  import opened HttpMessages
  import opened HttpRules
  import opened HttpParsing
  import opened HttpRoundTrip
  import opened HttpReparsing
  import Chunked
  import ChunkedLanguage

  /** The first line and the headers can be sent. */
  ghost predicate Sendable(line: string, hs: seq<HttpHeader>) {
    && Chunked.IsLine(line)
    && forall i :: 0 <= i < |hs| ==> Printable(hs[i]) && Chunked.IsLine(PrintHeader(hs[i]))
  }

  /** The bytes of a message, cut anywhere. */
  ghost predicate IsCut(pieces: seq<string>, text: string) {
    pieces != [] && (forall i :: 0 <= i < |pieces| ==> pieces[i] != []) && Chunked.Glue(pieces) == text
  }

  /** Parsed to exactly this message and nothing else. */
  function Only(response: bool, t: Text, request: Text): Parser {
    Running(response, [], NEW_MESSAGE, [Exchange(t, if response then request else NO_TEXT)],
            if response then [] else [request])
  }

  lemma OneMessage(response: bool, t: Text, request: Text, pieces: seq<string>)
    requires WellFormed(response, t, if response then request.firstLine else []) && IsCut(pieces, Print(t))
    ensures ParseAll(Ready(response, [request]), pieces) == Only(response, t, request)
  {
    hide WellFormed, Print, ParseAll;
    var ts, requests := [t], [request];
    assert ts[1..] == [] && Print(t) + [] == Print(t) && PrintAll(ts) == Print(t);
    assert AllWellFormed(response, ts, requests);
    PipelinedRoundTrip(response, ts, requests, pieces);
    OneAnswer(response, t, request);
    assert [request][1..] == [];
  }

  lemma OneAnswer(response: bool, t: Text, request: Text)
    ensures Answers(response, [t], [request]) == [Exchange(t, if response then request else NO_TEXT)]
  {
    assert [t][1..] == [];
  }

  // ----- one theorem per rule -----

  /** A response with a Content-Length n and any n bytes parses to exactly that body. */
  lemma LengthResponseParses(version: string, code: string, reason: string, hs: seq<HttpHeader>, i: nat,
                             body: string, request: Text, pieces: seq<string>)
    requires IsStatus(version, code) && !Bodyless(code, request.firstLine) && !Has(hs, "Transfer-Encoding")
    requires IsFirst(hs, "Content-Length", i) && hs[i].value == Decimal(|body|) && |body| < 0x8000_0000_0000_0000
    requires Sendable(StatusLine(version, code, reason), hs)
    requires IsCut(pieces, Print(Text(StatusLine(version, code, reason), hs, body)))
    ensures ParseAll(Ready(true, [request]), pieces)
         == Only(true, Text(StatusLine(version, code, reason), hs, body), request)
  {
    hide PlanFor, Has, IsFirst, Decimal, Print, ParseAll, Printable, Chunked.IsLine;
    var t := Text(StatusLine(version, code, reason), hs, body);
    RuleThree(version, code, reason, hs, request.firstLine, i, |body|);
    assert WellFormed(true, t, request.firstLine);
    OneMessage(true, t, request, pieces);
  }

  /** A response that never has a body parses to an empty one. */
  lemma BodylessResponseParses(version: string, code: string, reason: string, hs: seq<HttpHeader>,
                               request: Text, pieces: seq<string>)
    requires IsStatus(version, code) && Bodyless(code, request.firstLine)
    requires Sendable(StatusLine(version, code, reason), hs)
    requires IsCut(pieces, Print(Text(StatusLine(version, code, reason), hs, [])))
    ensures ParseAll(Ready(true, [request]), pieces)
         == Only(true, Text(StatusLine(version, code, reason), hs, []), request)
  {
    hide PlanFor, Print, ParseAll, Printable, Chunked.IsLine;
    var t := Text(StatusLine(version, code, reason), hs, []);
    RuleOne(version, code, reason, hs, request.firstLine);
    assert WellFormed(true, t, request.firstLine);
    OneMessage(true, t, request, pieces);
  }

  /** A response whose last coding is chunked and whose bytes are a chunked body parses to them. */
  lemma ChunkedResponseParses(version: string, code: string, reason: string, hs: seq<HttpHeader>,
                              i: nat, list: string, last: string, body: string, request: Text, pieces: seq<string>)
    requires IsStatus(version, code) && !Bodyless(code, request.firstLine) && LastCodingIsChunked(hs, i, list, last)
    requires ChunkedLanguage.IsBody(body, |body|, Has(hs, "Trailer"))
    requires Sendable(StatusLine(version, code, reason), hs)
    requires IsCut(pieces, Print(Text(StatusLine(version, code, reason), hs, body)))
    ensures ParseAll(Ready(true, [request]), pieces)
         == Only(true, Text(StatusLine(version, code, reason), hs, body), request)
  {
    hide PlanFor, Has, LastCodingIsChunked, Print, ParseAll, Printable, Chunked.IsLine, ChunkedLanguage.IsBody;
    var t := Text(StatusLine(version, code, reason), hs, body);
    RuleTwo(version, code, reason, hs, request.firstLine, i, list, last);
    assert WellFormed(true, t, request.firstLine);
    OneMessage(true, t, request, pieces);
  }

  /** A POST request with a Content-Length n and any n bytes parses to exactly that body, a GET or
      HEAD request to an empty one. */
  lemma RequestParses(line: string, rest: string, hs: seq<HttpHeader>, i: nat, body: string, pieces: seq<string>)
    requires Sendable(line, hs) && IsCut(pieces, Print(Text(line, hs, body)))
    requires
      || ((line == "GET " + rest || line == "HEAD " + rest) && body == [])
      || (line == "POST " + rest && IsFirst(hs, "Content-Length", i) && hs[i].value == Decimal(|body|)
          && |body| < 0x8000_0000_0000_0000)
    ensures ParseAll(Ready(false, [NO_TEXT]), pieces) == Only(false, Text(line, hs, body), NO_TEXT)
  {
    hide PlanFor, Has, IsFirst, Decimal, Print, ParseAll, Printable, Chunked.IsLine;
    RequestRules(rest, hs, i, |body|, line, []);
    assert WellFormed(false, Text(line, hs, body), []);
    OneMessage(false, Text(line, hs, body), NO_TEXT, pieces);
  }

  // ----- bodies that the end of the connection ends -----

  /** Where a printed message leads once its headers have been read: into its body, with the body's
      bytes and what follows still in the buffer. */
  lemma ReachesBody(p: Parser, t: Text, plan: Plan)
    requires p.Running? && p.response && p.msg == NEW_MESSAGE && p.buffer == Print(t) && p.requests != []
    requires Sendable(t.firstLine, t.headers)
    requires PlanFor(true, t.firstLine, t.headers, p.requests[0].firstLine) == Some(plan)
    ensures Loop(p) == Loop(Running(true, t.body, Message(BodyPending, t.(body := []), plan, p.requests[0]),
                                    p.done, p.requests[1..]))
  {
    hide Loop, Step, Chunked.IsLine, PlanFor, Printable, Print, PrintHeaders;
    var tail := CRLF + t.body;
    PrintedParts(t);
    FirstLineParses(p, t.firstLine, PrintHeaders(t.headers) + tail);
    LoopStep(p);
    var q1 := Step(p).parser;
    HeadersParse(q1, t.headers, tail);
    var q2 := WithHeaders(q1, t.headers, tail);
    assert [] + t.headers == t.headers && tail == [] + CRLF + t.body;
    EmptyLine();
    HeaderLineParses(q2, [], t.body);
    LoopStep(q2);
  }

  lemma PrintedParts(t: Text)
    ensures Print(t) != [] && Print(t) == t.firstLine + CRLF + (PrintHeaders(t.headers) + (CRLF + t.body))
  {
    hide PrintHeaders;
    assert t.firstLine + CRLF + PrintHeaders(t.headers) + CRLF + t.body
        == t.firstLine + CRLF + (PrintHeaders(t.headers) + (CRLF + t.body));
  }

  /** The plan takes all these bytes and asks for more. */
  ghost predicate Takes(plan: Plan, next: Plan, body: string) {
    || (plan == UntilEof && next == UntilEof)
    || (plan.ByChunks? && next.ByChunks? && Chunked.Reading(plan.chunker, body) == Chunked.NeedMore(next.chunker))
  }

  lemma BodyWaits(p: Parser, t: Text, next: Plan)
    requires p.Running? && p.msg.stage == BodyPending && p.msg.text == t.(body := []) && p.buffer == t.body
    requires Takes(p.msg.plan, next, t.body)
    ensures Loop(p) == p.(buffer := [], msg := p.msg.(text := t, plan := next))
  {
    hide Chunked.Reading;
    assert p.buffer[..|p.buffer|] == t.body && [] + t.body == t.body && p.buffer[|p.buffer|..] == [];
  }

  /** At the end of the connection a body that it may end is complete with the bytes received. */
  lemma EofCompletes(p: Parser)
    requires p.Running? && p.msg.stage == BodyPending && p.buffer == []
    requires p.msg.plan.UntilEof? || p.msg.plan.ByChunks?
    ensures Parse(p, []) == p.(msg := NEW_MESSAGE, done := p.done + [Exchange(p.msg.text, p.msg.request)])
  {
    hide Loop, Find;
    var q := p.(msg := p.msg.(stage := Complete, plan := Unplanned));
    assert p.buffer + [] == p.buffer;
    assert Append(Eof(p), []) == q;
    CompleteStep(q);
    LoopStep(q);
    var r := Step(q).parser;
    EmptyBufferHalts(r);
    LoopHalts(r);
  }

  /** A body ended by the connection: whatever bytes a response without a length brings, and
      however it is cut, after the end of the connection it is complete with exactly those bytes.
      A chunked body that is cut short by the end of the connection is taken as far as it came. */
  lemma EofResponseParses(t: Text, request: Text, plan: Plan, next: Plan, pieces: seq<string>)
    requires Sendable(t.firstLine, t.headers) && IsCut(pieces, Print(t))
    requires PlanFor(true, t.firstLine, t.headers, request.firstLine) == Some(plan) && Takes(plan, next, t.body)
    ensures Parse(ParseAll(Ready(true, [request]), pieces), []) == Only(true, t, request)
  {
    hide Loop, ParseAll, Print, PlanFor, Takes, Sendable;
    var p := Running(true, Print(t), NEW_MESSAGE, [], [request]);
    assert [request][1..] == [] && [] + Print(t) == Print(t);
    NewIsClean(true, [request]);
    AnyFragmentation(Ready(true, [request]), pieces);
    PrintedParts(t);
    assert Append(Ready(true, [request]), Print(t)) == p;
    ReachesBody(p, t, plan);
    var q := Running(true, t.body, Message(BodyPending, t.(body := []), plan, request), [], []);
    BodyWaits(q, t, next);
    var r := q.(buffer := [], msg := q.msg.(text := t, plan := next));
    NextHasNoSize(plan, next, t.body);
    EofCompletes(r);
    assert [] + [Exchange(t, request)] == [Exchange(t, request)];
  }

  lemma NextHasNoSize(plan: Plan, next: Plan, body: string)
    requires Takes(plan, next, body)
    ensures next.UntilEof? || next.ByChunks?
  {
  }

  /** The same in terms of headers: no length rule applies and there is no Content-Type header. */
  lemma UntilEofResponseParses(version: string, code: string, reason: string, hs: seq<HttpHeader>,
                               body: string, request: Text, pieces: seq<string>)
    requires IsStatus(version, code) && !Bodyless(code, request.firstLine) && NoLength(hs) && !Has(hs, "Content-Type")
    requires Sendable(StatusLine(version, code, reason), hs)
    requires IsCut(pieces, Print(Text(StatusLine(version, code, reason), hs, body)))
    ensures Parse(ParseAll(Ready(true, [request]), pieces), [])
         == Only(true, Text(StatusLine(version, code, reason), hs, body), request)
  {
    hide PlanFor, NoLength, Has, ParseAll, Parse, Print, Sendable;
    RuleFive(version, code, reason, hs, request.firstLine);
    EofResponseParses(Text(StatusLine(version, code, reason), hs, body), request, UntilEof, UntilEof, pieces);
  }

  // ----- the end of the connection, point by point -----

  /** Between messages the end of the connection changes nothing; inside headers, or a body of known
      size, it throws. */
  lemma EofElsewhere(p: Parser)
    requires p.Running?
    ensures p.msg.stage == FirstLinePending && Find(p.buffer, CRLF) < 0 ==> Parse(p, []) == p
    ensures p.msg.stage == HeadersPending ==> Parse(p, []) == Failed(Exception)
    ensures p.msg.stage == BodyPending && p.msg.plan.Known? ==> Parse(p, []) == Failed(Exception)
  {
    hide Find;
    assert p.buffer + [] == p.buffer;
  }

  // ----- input that throws -----

  /** A response without a forwarded request, a header line without a colon and headers to which no
      length rule applies throw, whatever follows. */
  lemma BadInputThrows(p: Parser, line: string, rest: string)
    requires p.Running? && Chunked.IsLine(line) && p.buffer == line + CRLF + rest
    ensures p.msg.stage == FirstLinePending && p.response && p.requests == [] ==> Loop(p) == Failed(Exception)
    ensures p.msg.stage == HeadersPending && line != [] && ':' !in line ==> Loop(p) == Failed(Exception)
    ensures
      var plan := PlanFor(p.response, p.msg.text.firstLine, p.msg.text.headers, p.msg.request.firstLine);
      p.msg.stage == HeadersPending && line == [] && plan == None ==> Loop(p) == Failed(Exception)
  {
    hide Loop, Find, PlanFor, ParseHeader, Chunked.IsLine;
    LineAtHead(line, rest);
    if ':' !in line { NoColonNoHeader(line); }
    if Step(p).Halt? { LoopHalts(p); }
  }
}

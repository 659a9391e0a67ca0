/** Printing messages and parsing them back, any number in a row and cut anywhere. */
module HttpRoundTrip {
  import opened Strings
  import opened HttpMessages
  import opened HttpParsing
  import Chunked
  import ChunkedLanguage

  function PrintHeaders(hs: seq<HttpHeader>): string {
    if hs == [] then [] else PrintHeader(hs[0]) + CRLF + PrintHeaders(hs[1..])
  }

  /** `HTTPMessage::str` */
  function Print(t: Text): string {
    t.firstLine + CRLF + PrintHeaders(t.headers) + CRLF + t.body
  }

  /** The body is as long as the length rules say; a body ended by the connection is not. */
  ghost predicate Framed(response: bool, t: Text, requestLine: string) {
    match PlanFor(response, t.firstLine, t.headers, requestLine)
    case None => false
    case Some(plan) => match plan
      case Unplanned => false
      case Known(size) => |t.body| == size
      case ByChunks(c) => ChunkedLanguage.IsBody(t.body, |t.body|, c.scan.trailers)
      case UntilEof => false
  }

  /** Lines contain no CRLF, headers can be printed, and the body is framed. */
  ghost predicate WellFormed(response: bool, t: Text, requestLine: string) {
    && Chunked.IsLine(t.firstLine)
    && (forall i :: 0 <= i < |t.headers| ==> Printable(t.headers[i]) && Chunked.IsLine(PrintHeader(t.headers[i])))
    && Framed(response, t, requestLine)
  }

  lemma LoopStep(p: Parser)
    requires Step(p).Again?
    ensures Loop(p) == Loop(Step(p).parser)
  {
  }

  /** A line at the head of the buffer is found as such. */
  lemma LineAtHead(line: string, rest: string)
    requires Chunked.IsLine(line)
    ensures var b := line + CRLF + rest;
      Find(b, CRLF) == |line| && b[..|line|] == line && b[|line| + 2..] == rest
  {
    hide Find;
    FindExtend(line + CRLF, rest, CRLF);
    assert line + CRLF + rest == (line + CRLF) + rest;
  }

  lemma FirstLineParses(p: Parser, line: string, rest: string)
    requires p.Running? && p.msg.stage == FirstLinePending && p.buffer == line + CRLF + rest
    requires Chunked.IsLine(line) && (p.response ==> p.requests != [])
    ensures Step(p) == TakeFirstLine(p, line, rest)
  {
    hide Find, Chunked.IsLine;
    LineAtHead(line, rest);
  }

  lemma HeaderLineParses(p: Parser, line: string, rest: string)
    requires p.Running? && p.msg.stage == HeadersPending && p.buffer == line + CRLF + rest && Chunked.IsLine(line)
    ensures Step(p) == TakeHeaderLine(p, line, rest)
  {
    hide Find, Chunked.IsLine;
    LineAtHead(line, rest);
  }

  function WithHeaders(p: Parser, hs: seq<HttpHeader>, rest: string): Parser
    requires p.Running?
  {
    p.(buffer := rest, msg := p.msg.(text := p.msg.text.(headers := p.msg.text.headers + hs)))
  }

  /** Printed headers parse back one after the other. */
  lemma {:induction false} HeadersParse(p: Parser, hs: seq<HttpHeader>, rest: string)
    requires p.Running? && p.msg.stage == HeadersPending && p.buffer == PrintHeaders(hs) + rest
    requires forall i :: 0 <= i < |hs| ==> Printable(hs[i]) && Chunked.IsLine(PrintHeader(hs[i]))
    ensures Loop(p) == Loop(WithHeaders(p, hs, rest))
    decreases |hs|
  {
    hide Loop, Step, Chunked.IsLine, ParseHeader, Printable, PlanFor;
    if hs == [] {
      assert p.msg.text.headers + hs == p.msg.text.headers && p.buffer == rest;
      assert WithHeaders(p, hs, rest) == p;
    } else {
      var h, more := hs[0], PrintHeaders(hs[1..]) + rest;
      assert p.buffer == PrintHeader(h) + CRLF + more;
      HeaderLineParses(p, PrintHeader(h), more);
      HeaderRoundTripIff(h);
      LoopStep(p);
      var q := Step(p).parser;
      HeadersParse(q, hs[1..], rest);
      assert p.msg.text.headers + [h] + hs[1..] == p.msg.text.headers + hs;
    }
  }

  /** A framed body is taken exactly, and the message is complete. */
  lemma BodyParses(p: Parser, t: Text, rest: string)
    requires p.Running? && p.msg.stage == BodyPending && p.msg.text == t.(body := []) && p.buffer == t.body + rest
    requires PlanFor(p.response, t.firstLine, t.headers, p.msg.request.firstLine) == Some(p.msg.plan)
    requires Framed(p.response, t, p.msg.request.firstLine)
    ensures Step(p) == Again(p.(buffer := rest, msg := p.msg.(stage := Complete, plan := Unplanned, text := t)))
  {
    hide PlanFor, Chunked.Reading, Chunked.Settled, ChunkedLanguage.IsBody;
    PlanShapes(p.response, t.firstLine, t.headers, p.msg.request.firstLine);
    assert p.buffer[..|t.body|] == t.body && p.buffer[|t.body|..] == rest && [] + t.body == t.body;
    if p.msg.plan.ByChunks? {
      var c := p.msg.plan.chunker;
      ChunkedLanguage.EndIff(c.scan.trailers, t.body, |t.body|);
      Chunked.FreshSettles(false);
      Chunked.FreshSettles(true);
      Chunked.ReadSettles(c, t.body);
      Chunked.ReadComposes(c, t.body, rest);
    }
  }

  /** The parser after one more message. */
  function Finished(p: Parser, t: Text, rest: string): Parser
    requires p.Running? && (p.response ==> p.requests != [])
  {
    var request := if p.response then p.requests[0] else NO_TEXT;
    p.(buffer := rest, msg := NEW_MESSAGE, done := p.done + [Exchange(t, request)],
       requests := if p.response then p.requests[1..] else p.requests)
  }

  /** One printed message parses back to itself, whatever follows. */
  lemma MessageParses(p: Parser, t: Text, rest: string)
    requires p.Running? && p.msg == NEW_MESSAGE && p.buffer == Print(t) + rest
    requires p.response ==> p.requests != []
    requires WellFormed(p.response, t, if p.response then p.requests[0].firstLine else [])
    ensures Loop(p) == Loop(Finished(p, t, rest))
  {
    hide Loop, Step, Chunked.IsLine, Framed, PlanFor, Printable;
    var tail := CRLF + t.body + rest;
    var afterFirst := PrintHeaders(t.headers) + tail;
    assert p.buffer == t.firstLine + CRLF + afterFirst;
    FirstLineParses(p, t.firstLine, afterFirst);
    LoopStep(p);
    var q1 := Step(p).parser;
    HeadersParse(q1, t.headers, tail);
    var q2 := WithHeaders(q1, t.headers, tail);
    assert [] + t.headers == t.headers;
    EmptyLine();
    assert tail == [] + CRLF + (t.body + rest);
    HeaderLineParses(q2, [], t.body + rest);
    FramedIsPlanned(p.response, t, q2.msg.request.firstLine);
    LoopStep(q2);
    var q3 := Step(q2).parser;
    BodyParses(q3, t, rest);
    LoopStep(q3);
    var q4 := Step(q3).parser;
    CompleteStep(q4);
    LoopStep(q4);
  }

  lemma EmptyLine()
    ensures Chunked.IsLine([])
  {
  }

  lemma FramedIsPlanned(response: bool, t: Text, requestLine: string)
    requires Framed(response, t, requestLine)
    ensures PlanFor(response, t.firstLine, t.headers, requestLine).Some?
  {
  }

  lemma CompleteStep(p: Parser)
    requires p.Running? && p.msg.stage == Complete
    ensures Step(p) == Again(p.(msg := NEW_MESSAGE, done := p.done + [Exchange(p.msg.text, p.msg.request)]))
  {
  }

  // ----- pipelines -----

  function PrintAll(ts: seq<Text>): string {
    if ts == [] then [] else Print(ts[0]) + PrintAll(ts[1..])
  }

  /** The messages paired with the requests they answer. */
  function Answers(response: bool, ts: seq<Text>, requests: seq<Text>): seq<Exchange>
    requires response ==> |ts| <= |requests|
  {
    if ts == [] then []
    else
      var request := if response then requests[0] else NO_TEXT;
      [Exchange(ts[0], request)] + Answers(response, ts[1..], if response then requests[1..] else requests)
  }

  ghost predicate AllWellFormed(response: bool, ts: seq<Text>, requests: seq<Text>)
    requires response ==> |ts| <= |requests|
  {
    forall i :: 0 <= i < |ts| ==> WellFormed(response, ts[i], if response then requests[i].firstLine else [])
  }

  lemma {:induction false} PipelineParses(p: Parser, ts: seq<Text>)
    requires p.Running? && p.msg == NEW_MESSAGE && p.buffer == PrintAll(ts)
    requires (p.response ==> |ts| <= |p.requests|) && AllWellFormed(p.response, ts, p.requests)
    ensures Loop(p) == Running(p.response, [], NEW_MESSAGE, p.done + Answers(p.response, ts, p.requests),
                               if p.response then p.requests[|ts|..] else p.requests)
    decreases |ts|
  {
    hide Step, WellFormed, Print;
    if ts == [] {
      EmptyBufferHalts(p);
      assert p.done + [] == p.done;
    } else {
      hide Loop;
      MessageParses(p, ts[0], PrintAll(ts[1..]));
      var q := Finished(p, ts[0], PrintAll(ts[1..]));
      if p.response {
        assert forall i :: 0 <= i < |ts| - 1 ==> q.requests[i] == p.requests[i + 1];
        assert p.requests[1..][|ts| - 1..] == p.requests[|ts|..];
      }
      PipelineParses(q, ts[1..]);
      var request := if p.response then p.requests[0] else NO_TEXT;
      assert p.done + [Exchange(ts[0], request)] + Answers(p.response, ts[1..], q.requests)
          == p.done + ([Exchange(ts[0], request)] + Answers(p.response, ts[1..], q.requests));
    }
  }

  lemma EmptyBufferHalts(p: Parser)
    requires p.Running? && p.msg.stage == FirstLinePending && p.buffer == []
    ensures Step(p) == Halt(p)
  {
  }

  /** A new parser that already knows the requests to be answered. */
  function Ready(response: bool, requests: seq<Text>): Parser {
    Running(response, [], NEW_MESSAGE, [], requests)
  }

  lemma StreamParses(response: bool, ts: seq<Text>, requests: seq<Text>)
    requires (response ==> |ts| <= |requests|) && AllWellFormed(response, ts, requests) && PrintAll(ts) != []
    ensures Parse(Ready(response, requests), PrintAll(ts))
         == Running(response, [], NEW_MESSAGE, Answers(response, ts, requests),
                    if response then requests[|ts|..] else requests)
  {
    hide Loop, AllWellFormed, PrintAll, Answers;
    var stream, answers := PrintAll(ts), Answers(response, ts, requests);
    assert [] + stream == stream && [] + answers == answers;
    PipelineParses(Append(Ready(response, requests), stream), ts);
  }

  /** Pipelined round trip: any list of well-formed messages, printed in a row and cut into
      nonempty pieces anywhere, parses back to exactly that list with nothing left over. */
  lemma PipelinedRoundTrip(response: bool, ts: seq<Text>, requests: seq<Text>, pieces: seq<string>)
    requires (response ==> |ts| <= |requests|) && AllWellFormed(response, ts, requests)
    requires pieces != [] && (forall i :: 0 <= i < |pieces| ==> pieces[i] != []) && Chunked.Glue(pieces) == PrintAll(ts)
    ensures ParseAll(Ready(response, requests), pieces)
         == Running(response, [], NEW_MESSAGE, Answers(response, ts, requests),
                    if response then requests[|ts|..] else requests)
  {
    hide Parse, ParseAll, AllWellFormed, PrintAll, Answers;
    AnyFragmentation(Ready(response, requests), pieces);
    assert Chunked.Glue(pieces) != [] by {
      assert Chunked.Glue(pieces) == Chunked.Glue(pieces[..|pieces| - 1]) + pieces[|pieces| - 1];
    }
    StreamParses(response, ts, requests);
  }

  // ----- what the parser produces can be printed and parsed again -----

  /** No CRLF anywhere inside. */
  ghost predicate NoCrlf(s: string) {
    forall i :: 0 <= i < |s| - 1 ==> !(s[i] == '\r' && s[i + 1] == '\n')
  }

  lemma CrlfAt(s: string, i: nat)
    requires i < |s|
    ensures At(s + CRLF, CRLF, i) <==> i + 1 < |s| && s[i] == '\r' && s[i + 1] == '\n'
  {
    var b := s + CRLF;
    assert b[i..i + 2] == [b[i], b[i + 1]];
  }

  lemma IsLineIff(s: string)
    ensures Chunked.IsLine(s) <==> NoCrlf(s)
  {
    hide Find;
    var b := s + CRLF;
    FindIsFirst(b, CRLF);
    assert At(b, CRLF, |s|);
    if NoCrlf(s) {
      forall i | 0 <= i < |s| ensures !At(b, CRLF, i) {
        CrlfAt(s, i);
      }
    } else {
      var i :| 0 <= i < |s| - 1 && s[i] == '\r' && s[i + 1] == '\n';
      CrlfAt(s, i);
    }
  }

  /** The line a step takes off the buffer contains no CRLF. */
  lemma TakenLineIsLine(b: string)
    requires Find(b, CRLF) >= 0
    ensures NoCrlf(b[..Find(b, CRLF)])
  {
    hide Find;
    FindIsFirst(b, CRLF);
    forall i | 0 <= i < Find(b, CRLF) - 1 ensures !(b[i] == '\r' && b[i + 1] == '\n') {
      assert !At(b, CRLF, i) && b[i..i + 2] == [b[i], b[i + 1]];
    }
  }

  /** A header as the parser makes it: its value may still be blank. */
  ghost predicate Clean(h: HttpHeader) {
    && ':' !in h.key && NoCrlf(PrintHeader(h))
    && (Printable(h) <==> exists i :: 0 <= i < |h.value| && h.value[i] != ' ')
  }

  /** What the parser cuts out of a line: the key before a colon, and a suffix after it. */
  ghost predicate CutFrom(h: HttpHeader, line: string) {
    && |h.key| + 1 + |h.value| <= |line| && h.key == line[..|h.key|]
    && h.value == line[|line| - |h.value|..]
  }

  lemma ParsedIsCut(line: string)
    requires ParseHeader(line).Some?
    ensures CutFrom(ParseHeader(line).value, line)
  {
    hide Find;
    SkipBlanksIsSuffix(line[Find(line, ":") + 1..]);
  }

  /** A colon and a blank between two pieces of a line without CRLF make no CRLF. */
  lemma CutHasNoCrlf(h: HttpHeader, line: string)
    requires NoCrlf(line) && CutFrom(h, line)
    ensures NoCrlf(PrintHeader(h))
  {
    var s, k, skip := PrintHeader(h), |h.key|, |line| - |h.value|;
    forall i | 0 <= i < |s| - 1 ensures !(s[i] == '\r' && s[i + 1] == '\n') {
      if i + 1 < k {
        assert s[i] == line[i] && s[i + 1] == line[i + 1];
      } else if i >= k + 2 {
        var j := i - k - 2 + skip;
        assert s[i] == line[j] && s[i + 1] == line[j + 1];
      }
    }
  }

  lemma ParsedHeaderIsClean(line: string)
    requires NoCrlf(line) && ParseHeader(line).Some?
    ensures Clean(ParseHeader(line).value)
  {
    hide ParseHeader, NoCrlf, PrintHeader, Printable, CutFrom;
    KeysHaveNoColon(line);
    ParsedIsCut(line);
    CutHasNoCrlf(ParseHeader(line).value, line);
  }

  ghost predicate AllClean(hs: seq<HttpHeader>) {
    forall i :: 0 <= i < |hs| ==> Clean(hs[i])
  }

  /** What a message in progress has so far can be printed, and its body follows its plan. */
  ghost predicate MessageClean(response: bool, m: Message) {
    m.stage != FirstLinePending ==>
      && NoCrlf(m.text.firstLine) && AllClean(m.text.headers)
      && (m.stage == BodyPending ==> FollowsPlan(response, m))
      && (m.stage == Complete ==> Framed(response, m.text, m.request.firstLine))
  }

  ghost predicate FollowsPlan(response: bool, m: Message) {
    match PlanFor(response, m.text.firstLine, m.text.headers, m.request.firstLine)
    case None => false
    case Some(plan) =>
      if plan.ByChunks? then
        m.plan.ByChunks? && Chunked.Reading(plan.chunker, m.text.body) == Chunked.NeedMore(m.plan.chunker)
      else m.plan == plan
  }

  ghost predicate ExchangeClean(response: bool, e: Exchange) {
    NoCrlf(e.text.firstLine) && AllClean(e.text.headers) && Framed(response, e.text, e.request.firstLine)
  }

  ghost predicate ParserClean(p: Parser) {
    p.Running? ==>
      MessageClean(p.response, p.msg) && forall i :: 0 <= i < |p.done| ==> ExchangeClean(p.response, p.done[i])
  }

  lemma HeaderStepClean(p: Parser, line: string, rest: string)
    requires p.Running? && ParserOk(p) && ParserClean(p) && p.msg.stage == HeadersPending && NoCrlf(line)
    ensures ParserClean(TakeHeaderLine(p, line, rest).parser)
  {
    hide PlanFor, ParseHeader, NoCrlf, Clean, Chunked.Reading, Chunked.Settled, Framed;
    if line == [] {
      PlanShapes(p.response, p.msg.text.firstLine, p.msg.text.headers, p.msg.request.firstLine);
      Chunked.FreshNeedsMore(false);
      Chunked.FreshNeedsMore(true);
    } else if ParseHeader(line).Some? {
      ParsedHeaderIsClean(line);
    }
  }

  lemma BodyStepClean(p: Parser)
    requires p.Running? && ParserOk(p) && ParserClean(p) && p.msg.stage == BodyPending
    ensures ParserClean(TakeBody(p).parser)
  {
    hide PlanFor, NoCrlf, AllClean, ExchangeClean, Chunked.Reading, Chunked.Settled, ChunkedLanguage.IsBody;
    var m, b := p.msg, p.buffer;
    match m.plan
    case Known(size) =>
    case UntilEof =>
    case ByChunks(c) =>
      var plan := PlanFor(p.response, m.text.firstLine, m.text.headers, m.request.firstLine).value;
      Chunked.ReadSettles(c, b);
      var r := Chunked.Reading(c, b);
      if r.BodyEnds? {
        Chunked.ReadComposes(c, b[..r.count], b[r.count..]);
        assert b[..r.count] + b[r.count..] == b;
        Chunked.ReadSettles(c, b[..r.count]);
        EndsAtCount(c, b, r.count);
        Chunked.ReadComposes(plan.chunker, m.text.body, b[..r.count]);
        PlanShapes(p.response, m.text.firstLine, m.text.headers, m.request.firstLine);
        ChunkedLanguage.EndIff(plan.chunker.scan.trailers, m.text.body + b[..r.count], |m.text.body| + r.count);
      } else {
        Chunked.ReadComposes(plan.chunker, m.text.body, b);
        assert b[..|b|] == b;
      }
  }

  /** A body that ends after k bytes of the input ends at the end of those k bytes. */
  lemma EndsAtCount(c: Chunked.Chunker, b: string, k: nat)
    requires Chunked.Settled(c) && k <= |b| && Chunked.Reading(c, b) == Chunked.BodyEnds(k)
    ensures Chunked.Reading(c, b[..k]) == Chunked.BodyEnds(k)
  {
    hide Chunked.Reading, Chunked.Settled;
    assert b[..k] + b[k..] == b;
    Chunked.ReadComposes(c, b[..k], b[k..]);
    Chunked.ReadSettles(c, b[..k]);
    var r := Chunked.Reading(c, b[..k]);
    if r.NeedMore? { Chunked.ReadSettles(r.next, b[k..]); }
  }

  lemma StepClean(p: Parser)
    requires ParserOk(p) && ParserClean(p)
    ensures ParserClean(Step(p).parser)
  {
    hide PlanFor, NoCrlf, AllClean, Find, TakeHeaderLine, TakeBody, FollowsPlan, Framed;
    if p.Running? {
      match p.msg.stage
      case FirstLinePending =>
        if Find(p.buffer, CRLF) >= 0 { TakenLineIsLine(p.buffer); NoHeadersClean(); }
      case HeadersPending =>
        if Find(p.buffer, CRLF) >= 0 {
          TakenLineIsLine(p.buffer);
          var i := Find(p.buffer, CRLF);
          HeaderStepClean(p, p.buffer[..i], p.buffer[i + 2..]);
        }
      case BodyPending => BodyStepClean(p);
      case Complete =>
    }
  }

  lemma NoHeadersClean()
    ensures AllClean([])
  {
  }

  lemma {:induction false} LoopClean(p: Parser)
    requires ParserOk(p) && ParserClean(p)
    ensures ParserClean(Loop(p))
    decreases Size(p), Rank(p)
  {
    hide Step, ParserClean, ParserOk;
    StepClean(p);
    StepKeepsOk(p);
    if Step(p).Again? {
      StepDecreases(p);
      LoopClean(Step(p).parser);
    }
  }

  lemma {:induction false} ParseAllClean(response: bool, requests: seq<Text>, pieces: seq<string>)
    requires forall i :: 0 <= i < |pieces| ==> pieces[i] != []
    ensures var p := ParseAll(Ready(response, requests), pieces);
      ParserOk(p) && ParserClean(p) && (p.Running? ==> p.response == response)
  {
    hide Loop, MessageClean, ExchangeClean, MessageOk;
    if pieces == [] {
      NewIsClean(response, requests);
    } else {
      var n := |pieces| - 1;
      ParseAllClean(response, requests, pieces[..n]);
      var p := ParseAll(Ready(response, requests), pieces[..n]);
      LoopKeepsKind(Append(p, pieces[n]));
      ParseKeepsOk(p, pieces[n]);
      LoopClean(Append(p, pieces[n]));
    }
  }

  lemma NewIsClean(response: bool, requests: seq<Text>)
    ensures ParserOk(Ready(response, requests)) && ParserClean(Ready(response, requests))
  {
  }

  /** Whatever bytes arrive, every message completed without an end of connection is well formed
      once none of its header values is blank, so printing and parsing it gives it back. */
  lemma ParsedMessagesAreWellFormed(response: bool, requests: seq<Text>, pieces: seq<string>, i: nat)
    requires forall j :: 0 <= j < |pieces| ==> pieces[j] != []
    requires var p := ParseAll(Ready(response, requests), pieces);
      p.Running? && i < |p.done|
      && forall j :: 0 <= j < |p.done[i].text.headers| ==> !Blank(p.done[i].text.headers[j].value)
    ensures var e := ParseAll(Ready(response, requests), pieces).done[i];
      WellFormed(response, e.text, e.request.firstLine)
  {
    hide ParseAll, Framed, Chunked.IsLine, NoCrlf, Printable, MessageClean;
    ParseAllClean(response, requests, pieces);
    var e := ParseAll(Ready(response, requests), pieces).done[i];
    assert ExchangeClean(response, e);
    IsLineIff(e.text.firstLine);
    forall j | 0 <= j < |e.text.headers|
      ensures Printable(e.text.headers[j]) && Chunked.IsLine(PrintHeader(e.text.headers[j]))
    {
      assert Clean(e.text.headers[j]) && !Blank(e.text.headers[j].value);
      IsLineIff(PrintHeader(e.text.headers[j]));
    }
  }

  predicate Blank(s: string) {
    forall i :: 0 <= i < |s| ==> s[i] == ' '
  }
}

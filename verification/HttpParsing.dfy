/** Incremental parsing of a stream of messages: `HTTPMessageSequence` with the message state
    machine of `HTTPMessage` and the request queue of `HTTPResponseParser`. */
module HttpParsing {
  import opened Strings
  import opened HttpMessages
  import Chunked
  import ChunkedLanguage

  datatype Stage = FirstLinePending | HeadersPending | BodyPending | Complete

  /** The message in progress; `request` is the one a response answers. */
  datatype Message = Message(stage: Stage, text: Text, plan: Plan, request: Text)

  /** A complete message with the request it answers. */
  datatype Exchange = Exchange(text: Text, request: Text)

  /** A thrown exception, the assertion on the CRLF after a chunk, or any other assertion. */
  datatype Failure = Exception | ChunkCrlf | OtherAssertion

  datatype Parser =
    | Running(response: bool, buffer: string, msg: Message, done: seq<Exchange>, requests: seq<Text>)
    | Failed(failure: Failure)

  const NO_TEXT := Text([], [], [])
  const NEW_MESSAGE := Message(FirstLinePending, NO_TEXT, Unplanned, NO_TEXT)

  function NewParser(response: bool): Parser {
    Running(response, [], NEW_MESSAGE, [], [])
  }

  /** `parsing_step`: go on, or wait for more input. */
  datatype Turn = Halt(parser: Parser) | Again(parser: Parser)

  /** `initialize_new_message` and `set_first_line` */
  function TakeFirstLine(p: Parser, line: string, rest: string): Turn
    requires p.Running?
  {
    if p.response && p.requests == [] then Halt(Failed(Exception))
    else
      var request := if p.response then p.requests[0] else p.msg.request;
      Again(p.(buffer := rest,
               msg := p.msg.(stage := HeadersPending, text := p.msg.text.(firstLine := line), request := request),
               requests := if p.response then p.requests[1..] else p.requests))
  }

  /** `add_header`, or `done_with_headers` at the empty line */
  function TakeHeaderLine(p: Parser, line: string, rest: string): Turn
    requires p.Running?
  {
    var t := p.msg.text;
    if line == [] then
      match PlanFor(p.response, t.firstLine, t.headers, p.msg.request.firstLine)
      case None => Halt(Failed(Exception))
      case Some(plan) => Again(p.(buffer := rest, msg := p.msg.(stage := BodyPending, plan := plan)))
    else
      match ParseHeader(line)
      case None => Halt(Failed(Exception))
      case Some(h) => Again(p.(buffer := rest, msg := p.msg.(text := t.(headers := t.headers + [h]))))
  }

  /** Moves n bytes of the buffer to the body; a complete message needs no plan any more. */
  function Absorb(p: Parser, n: nat, stage: Stage, plan: Plan): Parser
    requires p.Running? && n <= |p.buffer|
  {
    p.(buffer := p.buffer[n..],
       msg := p.msg.(stage := stage, plan := plan, text := p.msg.text.(body := p.msg.text.body + p.buffer[..n])))
  }

  /** `read_in_body` */
  function TakeBody(p: Parser): Turn
    requires p.Running?
  {
    var have, n := |p.msg.text.body|, |p.buffer|;
    match p.msg.plan
    case Unplanned => Halt(Failed(Exception))
    case UntilEof => Halt(Absorb(p, n, BodyPending, UntilEof))
    case Known(size) =>
      if have > size then Halt(Failed(OtherAssertion))
      else if size - have <= n then Again(Absorb(p, size - have, Complete, Unplanned))
      else Halt(Absorb(p, n, BodyPending, p.msg.plan))
    case ByChunks(c) =>
      match Chunked.Reading(c, p.buffer)
      case NeedMore(d) => Halt(Absorb(p, n, BodyPending, ByChunks(d)))
      case Throws(e) => Halt(Failed(if e == Chunked.ChunkCrlfAssertion then ChunkCrlf else Exception))
      case BodyEnds(k) =>
        if 0 < k <= n then Again(Absorb(p, k, Complete, Unplanned)) else Halt(Failed(OtherAssertion))
  }

  function Step(p: Parser): Turn {
    if p.Failed? then Halt(p)
    else match p.msg.stage
      case FirstLinePending =>
        var i := Find(p.buffer, CRLF);
        if i < 0 then Halt(p) else TakeFirstLine(p, p.buffer[..i], p.buffer[i + 2..])
      case HeadersPending =>
        var i := Find(p.buffer, CRLF);
        if i < 0 then Halt(p) else TakeHeaderLine(p, p.buffer[..i], p.buffer[i + 2..])
      case BodyPending => TakeBody(p)
      case Complete =>
        Again(p.(msg := NEW_MESSAGE, done := p.done + [Exchange(p.msg.text, p.msg.request)]))
  }

  function Size(p: Parser): nat {
    if p.Failed? then 0 else |p.buffer|
  }

  function Rank(p: Parser): nat {
    if p.Failed? then 0 else match p.msg.stage
      case FirstLinePending => 0
      case HeadersPending => 0
      case BodyPending => 2
      case Complete => 1
  }

  /** Every step that goes on shortens the buffer, or keeps it and lowers the rank. */
  lemma StepDecreases(p: Parser)
    requires Step(p).Again?
    ensures var q := Step(p).parser;
      q.Running? && (Size(q) < Size(p) || (Size(q) == Size(p) && Rank(q) < Rank(p)))
  {
    hide Find, PlanFor, ParseHeader, Chunked.Reading;
  }

  /** `while ( parsing_step() ) {}` */
  function Loop(p: Parser): Parser
    decreases Size(p), Rank(p)
  {
    match Step(p)
    case Halt(q) => q
    case Again(q) => StepDecreases(p); Loop(q)
  }

  function Append(p: Parser, input: string): Parser {
    if p.Failed? then p else p.(buffer := p.buffer + input)
  }

  /** `eof` */
  function Eof(p: Parser): Parser {
    if p.Failed? then p
    else match p.msg.stage
      case FirstLinePending => p
      case HeadersPending => Failed(Exception)
      case BodyPending =>
        if p.msg.plan.ByChunks? || p.msg.plan.UntilEof? then p.(msg := p.msg.(stage := Complete, plan := Unplanned))
        else Failed(Exception)
      case Complete => Failed(OtherAssertion)
  }

  /** `parse`; the empty string means the end of the connection. */
  function Parse(p: Parser, input: string): Parser {
    Loop(Append(if input == [] then Eof(p) else p, input))
  }

  /** `new_request_arrived` */
  function Forward(p: Parser, request: Text): Parser {
    if p.Failed? then p else p.(requests := p.requests + [request])
  }

  // ----- the invariant between steps -----

  /** The body read so far fits its plan; before the body nothing of it is there. */
  ghost predicate MessageOk(response: bool, m: Message) {
    match m.stage
    case FirstLinePending => m == NEW_MESSAGE
    case HeadersPending => m.text.body == [] && m.plan == Unplanned
    case BodyPending => PlanOk(response, m)
    case Complete => true
  }

  ghost predicate PlanOk(response: bool, m: Message) {
    match m.plan
    case Unplanned => false
    case Known(size) => |m.text.body| <= size
    case UntilEof => response
    case ByChunks(c) => response && HasRead(c, m.text.body)
  }

  /** The chunk parser has read exactly this much of the body and asks for more. */
  ghost predicate HasRead(c: Chunked.Chunker, body: string) {
    && Chunked.Settled(c) && c.acked == |body|
    && Chunked.Reading(Chunked.Fresh(c.scan.trailers), body) == Chunked.NeedMore(c)
  }

  /** A parser that has read `body` reads on as a new one reads it all. */
  lemma ReadsOn(c: Chunked.Chunker, body: string, more: string)
    requires HasRead(c, body)
    ensures match Chunked.Reading(c, more)
      case NeedMore(d) => HasRead(d, body + more)
      case BodyEnds(k) => 0 < k <= |more|
      case Throws(e) => true
    ensures Chunked.Reading(c, more) == Chunked.Throws(Chunked.ChunkCrlfAssertion)
       <==> ChunkedLanguage.BadBytes(body + more)
  {
    hide Chunked.Reading, Chunked.Settled, ChunkedLanguage.BadBytes;
    Chunked.ReadSettles(c, more);
    Chunked.ReadKeepsTrailers(c, more);
    Chunked.ReadComposes(Chunked.Fresh(c.scan.trailers), body, more);
    ChunkedLanguage.AssertionIff(c.scan.trailers, body + more);
  }

  ghost predicate ParserOk(p: Parser) {
    p.Running? ==> MessageOk(p.response, p.msg)
  }

  lemma HeaderKeepsOk(p: Parser, line: string, rest: string)
    requires p.Running? && ParserOk(p) && p.msg.stage == HeadersPending
    ensures ParserOk(TakeHeaderLine(p, line, rest).parser)
  {
    hide ParseHeader, PlanFor, Chunked.Settled, Chunked.Reading;
    var t := p.msg.text;
    PlanShapes(p.response, t.firstLine, t.headers, p.msg.request.firstLine);
    Chunked.FreshSettles(false);
    Chunked.FreshSettles(true);
    Chunked.FreshNeedsMore(false);
    Chunked.FreshNeedsMore(true);
  }

  lemma BodyKeepsOk(p: Parser)
    requires p.Running? && ParserOk(p) && p.msg.stage == BodyPending
    ensures ParserOk(TakeBody(p).parser)
  {
    hide Chunked.Reading, HasRead;
    if p.msg.plan.ByChunks? {
      ReadsOn(p.msg.plan.chunker, p.msg.text.body, p.buffer);
      assert p.buffer[..|p.buffer|] == p.buffer;
    }
  }

  /** Every step keeps the invariant. */
  lemma StepKeepsOk(p: Parser)
    requires ParserOk(p)
    ensures ParserOk(Step(p).parser)
  {
    hide Find, TakeHeaderLine, TakeBody;
    if p.Running? {
      match p.msg.stage
      case FirstLinePending =>
      case HeadersPending =>
        var i := Find(p.buffer, CRLF);
        if i >= 0 { HeaderKeepsOk(p, p.buffer[..i], p.buffer[i + 2..]); }
      case BodyPending => BodyKeepsOk(p);
      case Complete =>
    }
  }

  // ----- which assertions can fail -----

  /** The message in progress has a chunked body, and the bytes of it received so far contain a
      chunk that is not followed by CRLF. */
  ghost predicate AtBadChunk(p: Parser) {
    && p.Running? && p.msg.stage == BodyPending && p.msg.plan.ByChunks?
    && ChunkedLanguage.BadBytes(p.msg.text.body + p.buffer)
  }

  lemma BodyAsserts(p: Parser)
    requires p.Running? && ParserOk(p) && p.msg.stage == BodyPending
    ensures TakeBody(p).parser != Failed(OtherAssertion)
    ensures TakeBody(p).parser == Failed(ChunkCrlf) <==> AtBadChunk(p)
  {
    hide Chunked.Reading, HasRead, ChunkedLanguage.BadBytes;
    if p.msg.plan.ByChunks? { ReadsOn(p.msg.plan.chunker, p.msg.text.body, p.buffer); }
  }

  /** A step violates no assertion but the one on the CRLF after a chunk, and that one exactly at
      a bad chunk; only responses have chunks. */
  lemma OnlyChunkCrlfAsserts(p: Parser)
    requires p.Running? && ParserOk(p)
    ensures Step(p).parser != Failed(OtherAssertion)
    ensures Step(p).parser == Failed(ChunkCrlf) <==> AtBadChunk(p)
    ensures AtBadChunk(p) ==> p.response
  {
    hide Find, ParseHeader, PlanFor, TakeBody, HasRead, ChunkedLanguage.BadBytes;
    if p.msg.stage == BodyPending { BodyAsserts(p); }
  }

  /** q is where the parse loop stands n rounds after p. */
  predicate Reaches(p: Parser, q: Parser, n: nat)
    decreases n
  {
    if n == 0 then p == q else Step(p).Again? && Reaches(Step(p).parser, q, n - 1)
  }

  /** The loop comes to a bad chunk. */
  ghost predicate MeetsBadChunk(p: Parser) {
    exists q, n: nat :: Reaches(p, q, n) && AtBadChunk(q)
  }

  /** The parse loop violates no assertion but the one on the CRLF after a chunk, and that one
      exactly when it comes to a bad chunk. */
  lemma {:induction false} LoopAsserts(p: Parser)
    requires p.Running? && ParserOk(p)
    ensures Loop(p) != Failed(OtherAssertion)
    ensures Loop(p) == Failed(ChunkCrlf) <==> MeetsBadChunk(p)
    ensures MeetsBadChunk(p) ==> p.response
    decreases Size(p), Rank(p)
  {
    hide Step, ParserOk, AtBadChunk;
    OnlyChunkCrlfAsserts(p);
    StepKeepsOk(p);
    if Step(p).Again? {
      StepDecreases(p);
      var q := Step(p).parser;
      AgainKeepsKind(p);
      LoopAsserts(q);
      if MeetsBadChunk(q) {
        var b, n: nat :| Reaches(q, b, n) && AtBadChunk(b);
        assert Reaches(p, b, n + 1);
      }
      if MeetsBadChunk(p) {
        var b, n: nat :| Reaches(p, b, n) && AtBadChunk(b);
        assert n > 0;
        assert Reaches(q, b, n - 1);
      }
    } else {
      if AtBadChunk(p) { assert Reaches(p, p, 0); }
      if MeetsBadChunk(p) {
        var b, n: nat :| Reaches(p, b, n) && AtBadChunk(b);
        assert n == 0;
      }
    }
  }

  lemma AgainKeepsKind(p: Parser)
    requires Step(p).Again?
    ensures p.Running? && Step(p).parser.Running? && Step(p).parser.response == p.response
  {
    hide Find, ParseHeader, PlanFor, Chunked.Reading;
  }

  /** The loop keeps the invariant and never leaves a complete message in progress. */
  lemma {:induction false} LoopKeepsOk(p: Parser)
    requires ParserOk(p)
    ensures ParserOk(Loop(p)) && Step(Loop(p)).Halt?
    ensures Loop(p).Running? ==> Loop(p).msg.stage != Complete
    decreases Size(p), Rank(p)
  {
    hide Step, ParserOk;
    StepKeepsOk(p);
    if Step(p).Again? {
      StepDecreases(p);
      LoopKeepsOk(Step(p).parser);
    } else {
      HaltedStays(p);
    }
  }

  /** Nothing is left to do where a step has halted: an open body has taken the whole buffer. */
  lemma HaltedStays(p: Parser)
    requires ParserOk(p) && Step(p).Halt?
    ensures var q := Step(p).parser;
      Step(q).Halt? && (q.Running? ==> q.msg.stage != Complete && (q.msg.stage == BodyPending ==> q.buffer == []))
  {
    hide Find, ParseHeader, PlanFor, Chunked.Reading, Chunked.Settled;
    if p.Running? && p.msg.stage == BodyPending {
      match p.msg.plan
      case ByChunks(c) =>
        Chunked.ReadSettles(c, p.buffer);
        Chunked.ReadComposes(c, p.buffer, []);
        assert p.buffer + [] == p.buffer;
      case _ =>
    }
  }

  // ----- fragmentation independence -----

  lemma LineExtends(p: Parser, t: string)
    requires p.Running? && Find(p.buffer, CRLF) >= 0
    ensures var i := Find(p.buffer, CRLF);
      && Find(p.buffer + t, CRLF) == i
      && (p.buffer + t)[..i] == p.buffer[..i] && (p.buffer + t)[i + 2..] == p.buffer[i + 2..] + t
  {
    FindExtend(p.buffer, t, CRLF);
  }

  lemma AbsorbExtends(p: Parser, t: string, n: nat, stage: Stage, plan: Plan)
    requires p.Running? && n <= |p.buffer|
    ensures Absorb(Append(p, t), n, stage, plan) == Append(Absorb(p, n, stage, plan), t)
  {
  }

  lemma BodyExtends(p: Parser, t: string)
    requires p.Running? && ParserOk(p) && p.msg.stage == BodyPending
    ensures match TakeBody(p)
      case Again(q) => TakeBody(Append(p, t)) == Again(Append(q, t))
      case Halt(q) => q.Failed? ==> TakeBody(Append(p, t)) == Halt(q)
  {
    hide Chunked.Reading, Chunked.Settled;
    match p.msg.plan
    case Known(size) =>
      if size - |p.msg.text.body| <= |p.buffer| {
        AbsorbExtends(p, t, size - |p.msg.text.body|, Complete, Unplanned);
      }
    case ByChunks(c) =>
      Chunked.ReadSettles(c, p.buffer);
      Chunked.ReadComposes(c, p.buffer, t);
      var r := Chunked.Reading(c, p.buffer);
      if r.BodyEnds? { AbsorbExtends(p, t, r.count, Complete, Unplanned); }
    case _ =>
  }

  /** A step that goes on or fails is the same step whatever bytes follow. */
  lemma StepExtends(p: Parser, t: string)
    requires ParserOk(p)
    ensures match Step(p)
      case Again(q) => Step(Append(p, t)) == Again(Append(q, t))
      case Halt(q) => q.Failed? ==> Step(Append(p, t)) == Halt(q)
  {
    hide Find, PlanFor, ParseHeader, TakeBody;
    if p.Running? {
      match p.msg.stage
      case FirstLinePending => if Find(p.buffer, CRLF) >= 0 { LineExtends(p, t); }
      case HeadersPending => if Find(p.buffer, CRLF) >= 0 { LineExtends(p, t); }
      case BodyPending => BodyExtends(p, t);
      case Complete =>
    }
  }

  /** Absorbing everything and then n bytes of t is absorbing both at once. */
  lemma AbsorbTwice(p: Parser, t: string, n: nat, stage: Stage, plan: Plan, mid: Plan)
    requires p.Running? && n <= |t|
    ensures Absorb(Append(Absorb(p, |p.buffer|, BodyPending, mid), t), n, stage, plan)
         == Absorb(Append(p, t), |p.buffer| + n, stage, plan)
  {
  }

  lemma ChunksResume(p: Parser, t: string, c: Chunked.Chunker, d: Chunked.Chunker)
    requires p.Running? && p.msg.plan == ByChunks(c) && Chunked.Settled(c)
    requires Chunked.Reading(c, p.buffer) == Chunked.NeedMore(d)
    ensures TakeBody(Append(Absorb(p, |p.buffer|, BodyPending, ByChunks(d)), t)) == TakeBody(Append(p, t))
  {
    hide Chunked.Reading, Chunked.Settled;
    var n := |p.buffer|;
    Chunked.ReadSettles(c, p.buffer);
    Chunked.ReadSettles(d, t);
    Chunked.ReadComposes(c, p.buffer, t);
    assert p.buffer[n..] + t == t;
    match Chunked.Reading(d, t)
    case NeedMore(e) => AbsorbTwice(p, t, |t|, BodyPending, ByChunks(e), ByChunks(d));
    case BodyEnds(k) => AbsorbTwice(p, t, k, Complete, Unplanned, ByChunks(d));
    case Throws(e) =>
  }

  lemma KnownResumes(p: Parser, t: string, size: nat)
    requires p.Running? && p.msg.plan == Known(size) && |p.msg.text.body| + |p.buffer| < size
    ensures TakeBody(Append(Absorb(p, |p.buffer|, BodyPending, Known(size)), t)) == TakeBody(Append(p, t))
  {
    var k := size - |p.msg.text.body| - |p.buffer|;
    if k <= |t| {
      AbsorbTwice(p, t, k, Complete, Unplanned, p.msg.plan);
    } else {
      AbsorbTwice(p, t, |t|, BodyPending, p.msg.plan, p.msg.plan);
    }
  }

  /** A body that waits for more input waits in a state from which more input has the same effect. */
  lemma BodyResumes(p: Parser, t: string)
    requires p.Running? && ParserOk(p) && p.msg.stage == BodyPending
    requires TakeBody(p).Halt? && TakeBody(p).parser.Running?
    ensures TakeBody(Append(TakeBody(p).parser, t)) == TakeBody(Append(p, t))
  {
    hide Chunked.Reading, Chunked.Settled;
    match p.msg.plan
    case UntilEof => AbsorbTwice(p, t, |t|, BodyPending, UntilEof, UntilEof);
    case Known(size) => KnownResumes(p, t, size);
    case ByChunks(c) => ChunksResume(p, t, c, Chunked.Reading(c, p.buffer).next);
  }

  lemma StepResumes(p: Parser, t: string)
    requires ParserOk(p) && Step(p).Halt?
    ensures Step(Append(Step(p).parser, t)) == Step(Append(p, t))
  {
    hide Find, PlanFor, ParseHeader, TakeBody;
    if p.Running? && p.msg.stage == BodyPending {
      if TakeBody(p).parser.Failed? { StepExtends(p, t); } else { BodyHaltKeepsStage(p); BodyResumes(p, t); }
    } else {
      StepExtends(p, t);
    }
  }

  lemma BodyHaltKeepsStage(p: Parser)
    requires p.Running? && TakeBody(p).Halt? && TakeBody(p).parser.Running?
    ensures TakeBody(p).parser.msg.stage == BodyPending
  {
  }

  /** Parsing what is there first changes nothing: more input continues to the same end. */
  lemma {:induction false} LoopExtends(p: Parser, t: string)
    requires ParserOk(p)
    ensures Loop(Append(Loop(p), t)) == Loop(Append(p, t))
    decreases Size(p), Rank(p)
  {
    hide Step, ParserOk, Append;
    StepKeepsOk(p);
    StepExtends(p, t);
    if Step(p).Again? {
      StepDecreases(p);
      LoopExtends(Step(p).parser, t);
    } else {
      StepResumes(p, t);
    }
  }

  /** Fragmentation independence: two nonempty pieces parse to the same state, message by message
      and byte by byte, as their concatenation. */
  lemma FragmentationIndependence(p: Parser, a: string, b: string)
    requires ParserOk(p) && a != [] && b != []
    ensures Parse(Parse(p, a), b) == Parse(p, a + b)
  {
    hide Loop;
    LoopExtends(Append(p, a), b);
    AppendAppend(p, a, b);
  }

  lemma AppendAppend(p: Parser, a: string, b: string)
    ensures Append(Append(p, a), b) == Append(p, a + b)
  {
  }

  /** Feeding pieces one by one. */
  function ParseAll(p: Parser, pieces: seq<string>): Parser {
    if pieces == [] then p else Parse(ParseAll(p, pieces[..|pieces| - 1]), pieces[|pieces| - 1])
  }

  lemma ParseKeepsOk(p: Parser, input: string)
    requires ParserOk(p)
    ensures ParserOk(Parse(p, input))
  {
    hide Loop, Chunked.Settled;
    LoopKeepsOk(Append(if input == [] then Eof(p) else p, input));
  }

  /** Any cut of a nonempty stream into nonempty pieces parses like the stream in one piece. */
  lemma {:induction false} AnyFragmentation(p: Parser, pieces: seq<string>)
    requires ParserOk(p) && pieces != [] && forall i :: 0 <= i < |pieces| ==> pieces[i] != []
    ensures ParseAll(p, pieces) == Parse(p, Chunked.Glue(pieces))
  {
    hide Parse, ParserOk;
    var n := |pieces| - 1;
    if n > 0 {
      AnyFragmentation(p, pieces[..n]);
      assert Chunked.Glue(pieces[..n]) != [] by { assert pieces[..n][n - 1] == pieces[n - 1]; }
      FragmentationIndependence(p, Chunked.Glue(pieces[..n]), pieces[n]);
    } else {
      assert pieces[..n] == [] && Chunked.Glue(pieces) == [] + pieces[0] == pieces[0];
    }
  }

  // ----- responses answer requests in order -----

  datatype Event = Input(bytes: string) | Request(text: Text) | Pop

  /** A parser, the requests ever forwarded to it and the responses ever popped. */
  datatype Session = Session(parser: Parser, forwarded: seq<Text>, popped: seq<Exchange>)

  function Requests(es: seq<Exchange>): seq<Text> {
    if es == [] then [] else Requests(es[..|es| - 1]) + [es[|es| - 1].request]
  }

  /** The request of the message in progress, once it has one. */
  function Current(p: Parser): seq<Text>
    requires p.Running?
  {
    if p.msg.stage == FirstLinePending then [] else [p.msg.request]
  }

  /** Requests answered, being answered and waiting make up exactly those forwarded, in order; a
      request parser answers nothing. */
  ghost predicate Paired(p: Parser, answered: seq<Text>, forwarded: seq<Text>) {
    p.Running? && p.response ==> answered + Requests(p.done) + Current(p) + p.requests == forwarded
  }

  /** Taking the first line moves a request from waiting to being answered. */
  lemma FirstLinePairs(p: Parser, line: string, rest: string, front: seq<Text>)
    requires p.Running? && p.response && p.msg.stage == FirstLinePending
    ensures var q := TakeFirstLine(p, line, rest).parser;
      q.Running? ==> q.done == p.done && front + Current(q) + q.requests == front + Current(p) + p.requests
  {
    if p.requests != [] {
      assert p.requests == [p.requests[0]] + p.requests[1..];
      assert front + [] + p.requests == front + [p.requests[0]] + p.requests[1..];
    }
  }

  /** Completing a message moves its request from being answered to answered. */
  lemma CompletePairs(p: Parser, answered: seq<Text>)
    requires p.Running? && p.msg.stage == Complete
    ensures var q := Step(p).parser;
      answered + Requests(q.done) + Current(q) + q.requests == answered + Requests(p.done) + Current(p) + p.requests
  {
    var d := p.done + [Exchange(p.msg.text, p.msg.request)];
    assert d[..|d| - 1] == p.done;
    assert answered + (Requests(p.done) + [p.msg.request]) + [] == answered + Requests(p.done) + [p.msg.request];
  }

  /** Header and body steps touch no request. */
  lemma InnerPairs(p: Parser)
    requires p.Running? && (p.msg.stage == HeadersPending || p.msg.stage == BodyPending)
    ensures var q := Step(p).parser;
      q.Running? ==>
        q.response == p.response && q.done == p.done && q.requests == p.requests && Current(q) == Current(p)
  {
    hide Find, PlanFor, ParseHeader, Chunked.Reading;
  }

  lemma StepPairs(p: Parser, answered: seq<Text>, forwarded: seq<Text>)
    requires Paired(p, answered, forwarded)
    ensures Paired(Step(p).parser, answered, forwarded)
  {
    hide Find, Requests, Current, TakeHeaderLine, TakeBody;
    if p.Running? {
      match p.msg.stage
      case FirstLinePending =>
        var i := Find(p.buffer, CRLF);
        if i >= 0 && p.response {
          FirstLinePairs(p, p.buffer[..i], p.buffer[i + 2..], answered + Requests(p.done));
        }
      case HeadersPending => InnerPairs(p);
      case BodyPending => InnerPairs(p);
      case Complete => CompletePairs(p, answered);
    }
  }

  lemma {:induction false} LoopPairs(p: Parser, answered: seq<Text>, forwarded: seq<Text>)
    requires Paired(p, answered, forwarded)
    ensures Paired(Loop(p), answered, forwarded)
    decreases Size(p), Rank(p)
  {
    hide Step, Paired;
    StepPairs(p, answered, forwarded);
    if Step(p).Again? {
      StepDecreases(p);
      LoopPairs(Step(p).parser, answered, forwarded);
    }
  }

  /** Between two calls: the parser's invariant, no complete message left in progress, no
      assertion violated but the one on the CRLF after a chunk, and that only in a response. */
  ghost predicate Calm(response: bool, p: Parser) {
    && ParserOk(p) && p != Failed(OtherAssertion) && (!response ==> p != Failed(ChunkCrlf))
    && (p.Running? ==> p.response == response && p.msg.stage != Complete)
  }

  ghost predicate SessionOk(response: bool, s: Session) {
    Calm(response, s.parser) && Paired(s.parser, Requests(s.popped), s.forwarded)
  }

  lemma {:induction false} RequestsConcat(a: seq<Exchange>, b: seq<Exchange>)
    ensures Requests(a + b) == Requests(a) + Requests(b)
  {
    if b == [] {
      assert a + b == a && Requests(a) + [] == Requests(a);
    } else {
      var n := |b| - 1;
      assert (a + b)[..|a + b| - 1] == a + b[..n];
      RequestsConcat(a, b[..n]);
      assert Requests(a) + (Requests(b[..n]) + [b[n].request]) == Requests(a) + Requests(b[..n]) + [b[n].request];
    }
  }

  function Next(s: Session, e: Event): Session {
    match e
    case Input(bytes) => s.(parser := Parse(s.parser, bytes))
    case Request(text) => s.(parser := Forward(s.parser, text), forwarded := s.forwarded + [text])
    case Pop =>
      if s.parser.Failed? || s.parser.done == [] then s
      else s.(parser := s.parser.(done := s.parser.done[1..]), popped := s.popped + [s.parser.done[0]])
  }

  lemma EofPairs(p: Parser, answered: seq<Text>, forwarded: seq<Text>)
    requires Paired(p, answered, forwarded)
    ensures Paired(Eof(p), answered, forwarded)
  {
  }

  /** Where the parse loop starts when a piece of input arrives. */
  function Fed(p: Parser, input: string): Parser {
    Append(if input == [] then Eof(p) else p, input)
  }

  lemma FedIsOk(response: bool, p: Parser, input: string)
    requires Calm(response, p)
    ensures ParserOk(Fed(p, input)) && Fed(p, input) != Failed(OtherAssertion)
    ensures p.Running? ==> Fed(p, input) != Failed(ChunkCrlf)
    ensures p.Failed? ==> Fed(p, input) == p
    ensures Fed(p, input).Running? ==> p.Running? && Fed(p, input).response == response
  {
  }

  lemma FailedStays(p: Parser)
    requires p.Failed?
    ensures Loop(p) == p
  {
  }

  lemma {:induction false} LoopKeepsKind(p: Parser)
    ensures Loop(p).Running? ==> p.Running? && Loop(p).response == p.response
    decreases Size(p), Rank(p)
  {
    hide PlanFor, Find, ParseHeader, Chunked.Reading;
    if Step(p).Again? {
      StepDecreases(p);
      LoopKeepsKind(Step(p).parser);
    }
  }

  /** One `parse` from a calm state: it ends calm, and fails at the CRLF after a chunk exactly
      when the loop comes to a bad chunk. */
  lemma ParseIsCalm(response: bool, p: Parser, input: string)
    requires Calm(response, p)
    ensures Calm(response, Parse(p, input))
    ensures p.Running? ==> (Parse(p, input) == Failed(ChunkCrlf) <==> MeetsBadChunk(Fed(p, input)))
  {
    hide Loop, ParserOk, Fed, MeetsBadChunk;
    ParseIsLoop(p, input);
    FedIsOk(response, p, input);
    var q := Fed(p, input);
    LoopKeepsOk(q);
    LoopKeepsKind(q);
    if q.Running? {
      LoopAsserts(q);
    } else {
      FailedStays(q);
      FailedMeetsNothing(q);
    }
  }

  lemma ParseIsLoop(p: Parser, input: string)
    ensures Parse(p, input) == Loop(Fed(p, input))
  {
  }

  lemma FailedMeetsNothing(p: Parser)
    requires p.Failed?
    ensures !MeetsBadChunk(p)
  {
    forall q, n: nat | Reaches(p, q, n) ensures !AtBadChunk(q) {
    }
  }

  lemma ForwardPairs(p: Parser, answered: seq<Text>, forwarded: seq<Text>, text: Text)
    requires Paired(p, answered, forwarded)
    ensures Paired(Forward(p, text), answered, forwarded + [text])
  {
    hide Requests;
    if p.Running? && p.response {
      var front := answered + Requests(p.done) + Current(p);
      assert front + (p.requests + [text]) == front + p.requests + [text];
    }
  }

  lemma PopPairs(p: Parser, popped: seq<Exchange>, forwarded: seq<Text>)
    requires p.Running? && p.done != [] && Paired(p, Requests(popped), forwarded)
    ensures Paired(p.(done := p.done[1..]), Requests(popped + [p.done[0]]), forwarded)
  {
    hide Requests;
    var first, rest := [p.done[0]], p.done[1..];
    RequestsConcat(first, rest);
    RequestsConcat(popped, first);
    assert first + rest == p.done;
    assert Requests(popped) + (Requests(first) + Requests(rest)) == Requests(popped) + Requests(first) + Requests(rest);
  }

  lemma NextPairs(s: Session, e: Event)
    requires Paired(s.parser, Requests(s.popped), s.forwarded)
    ensures Paired(Next(s, e).parser, Requests(Next(s, e).popped), Next(s, e).forwarded)
  {
    hide Loop, Requests;
    var p, answered := s.parser, Requests(s.popped);
    match e
    case Input(bytes) =>
      EofPairs(p, answered, s.forwarded);
      LoopPairs(Append(if bytes == [] then Eof(p) else p, bytes), answered, s.forwarded);
    case Request(text) => ForwardPairs(p, answered, s.forwarded, text);
    case Pop => if p.Running? && p.done != [] { PopPairs(p, s.popped, s.forwarded); }
  }

  lemma EofKeepsOk(p: Parser)
    requires ParserOk(p)
    ensures ParserOk(Eof(p))
  {
  }

  lemma NextIsCalm(response: bool, s: Session, e: Event)
    requires Calm(response, s.parser)
    ensures Calm(response, Next(s, e).parser)
  {
    hide Parse;
    match e
    case Input(bytes) => ParseIsCalm(response, s.parser, bytes);
    case Request(text) =>
    case Pop =>
  }

  /** The state after any events on a new response parser or request parser. */
  function Sessions(response: bool, es: seq<Event>): Session {
    if es == [] then Session(NewParser(response), [], [])
    else Next(Sessions(response, es[..|es| - 1]), es[|es| - 1])
  }

  lemma {:induction false} SessionsKeepOk(response: bool, es: seq<Event>)
    ensures SessionOk(response, Sessions(response, es))
  {
    hide Next, ParserOk, Paired;
    if es == [] {
      NewIsCalm(response);
    } else {
      var s := Sessions(response, es[..|es| - 1]);
      SessionsKeepOk(response, es[..|es| - 1]);
      NextIsCalm(response, s, es[|es| - 1]);
      NextPairs(s, es[|es| - 1]);
    }
  }

  lemma NewIsCalm(response: bool)
    ensures Calm(response, NewParser(response)) && Paired(NewParser(response), [], [])
  {
  }

  /** Every run is free of assertion failures but one: whatever bytes, ends of connection, requests
      and pops come, the only assertion that can fail is the one on the CRLF after a chunk, never
      in a request parser, and `parse` never leaves a complete message in progress. */
  lemma RunsAssertOnlyChunkCrlf(response: bool, es: seq<Event>)
    ensures var p := Sessions(response, es).parser;
      && p != Failed(OtherAssertion) && (!response ==> p != Failed(ChunkCrlf))
      && (p.Running? ==> p.msg.stage != Complete)
  {
    hide Sessions, ParserOk, Paired;
    SessionsKeepOk(response, es);
  }

  /** Event k is input on which a parser that still runs comes to a bad chunk. */
  ghost predicate BadInput(response: bool, es: seq<Event>, k: nat)
    requires k < |es|
  {
    var p := Sessions(response, es[..k]).parser;
    p.Running? && es[k].Input? && MeetsBadChunk(Fed(p, es[k].bytes))
  }

  /** A run has failed the assertion on the CRLF after a chunk exactly when one of its inputs led
      the parser to a chunk without it. */
  lemma {:induction false} RunFailsIff(response: bool, es: seq<Event>)
    ensures Sessions(response, es).parser == Failed(ChunkCrlf)
       <==> exists k :: 0 <= k < |es| && BadInput(response, es, k)
  {
    hide Next, BadInput;
    if es != [] {
      var n := |es| - 1;
      RunFailsIff(response, es[..n]);
      BadInputAtEnd(response, es);
      forall k | 0 <= k < n ensures BadInput(response, es[..n], k) <==> BadInput(response, es, k) {
        BadInputPrefix(response, es, k);
      }
    }
  }

  lemma BadInputPrefix(response: bool, es: seq<Event>, k: nat)
    requires k < |es| - 1
    ensures BadInput(response, es[..|es| - 1], k) <==> BadInput(response, es, k)
  {
    assert es[..|es| - 1][..k] == es[..k];
  }

  /** The last event makes a run fail exactly when it is the bad input. */
  lemma BadInputAtEnd(response: bool, es: seq<Event>)
    requires es != []
    ensures var n, s := |es| - 1, Sessions(response, es[..|es| - 1]);
      Next(s, es[n]).parser == Failed(ChunkCrlf) <==> s.parser == Failed(ChunkCrlf) || BadInput(response, es, n)
  {
    hide Parse, Fed, MeetsBadChunk, ParserOk, Paired, Sessions;
    var n, s := |es| - 1, Sessions(response, es[..|es| - 1]);
    SessionsKeepOk(response, es[..n]);
    if es[n].Input? {
      ParseIsCalm(response, s.parser, es[n].bytes);
      FailedParses(s.parser, es[n].bytes);
    }
  }

  lemma FailedParses(p: Parser, input: string)
    ensures p.Failed? ==> Parse(p, input) == p
  {
  }

  lemma {:induction false} RequestsAt(es: seq<Exchange>, i: nat)
    requires i < |es|
    ensures |Requests(es)| == |es| && Requests(es)[i] == es[i].request
  {
    var n := |es| - 1;
    if i < n {
      RequestsAt(es[..n], i);
    } else if n > 0 {
      RequestsAt(es[..n], n - 1);
    }
  }

  /** On every run of inputs, forwarded requests and pops, the i-th response answers the i-th
      request forwarded. */
  lemma ResponsesAnswerInOrder(es: seq<Event>, i: nat)
    ensures var s := Sessions(true, es);
      s.parser.Running? && i < |s.popped + s.parser.done| ==>
        i < |s.forwarded| && (s.popped + s.parser.done)[i].request == s.forwarded[i]
  {
    hide Sessions, MessageOk, Requests;
    SessionsKeepOk(true, es);
    var s := Sessions(true, es);
    if s.parser.Running? && i < |s.popped + s.parser.done| {
      RequestsConcat(s.popped, s.parser.done);
      RequestsAt(s.popped + s.parser.done, i);
      assert Requests(s.popped) + Requests(s.parser.done) <= s.forwarded;
    }
  }
}

/** `HTTPMessageSequence` and `HTTPResponseParser` as the object they are. */
module HttpMessageSequences {
  import opened Strings
  import opened HttpMessages
  import opened HttpParsing
  import Chunked

  class HTTPMessageSequence {
    const response: bool
    var buffer: string
    var message: Message
    var complete: seq<Exchange>
    var requests: seq<Text>
    /** Set once an exception or a failed assertion has ended parsing. */
    var failure: Option<Failure>

    ghost function View(): Parser
      reads this
    {
      if failure.Some? then Failed(failure.value) else Running(response, buffer, message, complete, requests)
    }

    constructor (response: bool)
      ensures this.response == response && View() == NewParser(response) && ParserOk(View())
    {
      this.response := response;
      buffer, message, complete, requests, failure := [], NEW_MESSAGE, [], [], None;
    }

    /** `get_and_pop_line`, or None when no line is complete */
    method PopLine() returns (line: Option<string>)
      modifies this`buffer
      ensures var i := Find(old(buffer), CRLF);
        if i < 0 then line == None && buffer == old(buffer)
        else line == Some(old(buffer)[..i]) && buffer == old(buffer)[i + 2..]
    {
      var i := Find(buffer, CRLF);
      if i < 0 {
        return None;
      }
      line := Some(buffer[..i]);
      buffer := buffer[i + 2..];
    }

    /** Moves n bytes from the buffer to the body. */
    method TakeBytes(n: nat, stage: Stage, plan: Plan)
      requires failure.None? && n <= |buffer|
      modifies this`buffer, this`message
      ensures View() == Absorb(old(View()), n, stage, plan)
    {
      message := message.(stage := stage, plan := plan,
                          text := message.text.(body := message.text.body + buffer[..n]));
      buffer := buffer[n..];
    }

    /** `read_in_body`; returns whether the message is complete. */
    method ReadInBody() returns (done: bool)
      requires failure.None? && message.stage == BodyPending && ParserOk(View())
      modifies this`buffer, this`message, this`failure
      ensures TakeBody(old(View())) == if done then Again(View()) else Halt(View())
      ensures done ==> failure.None? && message.stage == Complete
    {
      hide Chunked.Reading, Chunked.Settled;
      match message.plan
      case UntilEof =>
        TakeBytes(|buffer|, BodyPending, UntilEof);
        done := false;
      case Known(size) =>
        assert |message.text.body| <= size;
        if size - |message.text.body| <= |buffer| {
          TakeBytes(size - |message.text.body|, Complete, Unplanned);
          done := true;
        } else {
          TakeBytes(|buffer|, BodyPending, message.plan);
          done := false;
        }
      case ByChunks(c) =>
        Chunked.ReadSettles(c, buffer);
        match Chunked.Reading(c, buffer) {
          case NeedMore(d) =>
            TakeBytes(|buffer|, BodyPending, ByChunks(d));
            done := false;
          case BodyEnds(k) =>
            TakeBytes(k, Complete, Unplanned);
            done := true;
          case Throws(e) =>
            failure := Some(if e == Chunked.ChunkCrlfAssertion then ChunkCrlf else Exception);
            done := false;
        }
    }

    /** One loop through the parser; returns whether to continue. */
    method ParsingStep() returns (again: bool)
      requires ParserOk(View())
      modifies this
      ensures Step(old(View())) == if again then Again(View()) else Halt(View())
      ensures ParserOk(View())
    {
      hide Find, PlanFor, ParseHeader, Chunked.Reading, Chunked.Settled;
      StepKeepsOk(View());
      if failure.Some? {
        return false;
      }
      match message.stage
      case FirstLinePending =>
        var line := PopLine();
        if line.None? {
          return false;
        }
        if response {
          if requests == [] {
            failure := Some(Exception);
            return false;
          }
          message := message.(request := requests[0]);
          requests := requests[1..];
        }
        message := message.(stage := HeadersPending, text := message.text.(firstLine := line.value));
        return true;
      case HeadersPending =>
        var line := PopLine();
        if line.None? {
          return false;
        }
        var text := message.text;
        if line.value == [] {
          match PlanFor(response, text.firstLine, text.headers, message.request.firstLine) {
            case None =>
              failure := Some(Exception);
              return false;
            case Some(plan) =>
              message := message.(stage := BodyPending, plan := plan);
          }
        } else {
          match ParseHeader(line.value) {
            case None =>
              failure := Some(Exception);
              return false;
            case Some(h) =>
              message := message.(text := text.(headers := text.headers + [h]));
          }
        }
        return true;
      case BodyPending =>
        again := ReadInBody();
      case Complete =>
        complete := complete + [Exchange(message.text, message.request)];
        message := NEW_MESSAGE;
        return true;
    }

    /** Takes bytes off the wire and parses as far as they reach; no bytes mean the end of the
        connection. */
    method Parse(input: string)
      requires ParserOk(View())
      modifies this
      ensures View() == HttpParsing.Parse(old(View()), input) && ParserOk(View())
      ensures failure.None? ==> message.stage != Complete
    {
      hide Step, MessageOk;
      ghost var start := Append(if input == [] then Eof(View()) else View(), input);
      if input == [] && failure.None? {
        match message.stage
        case FirstLinePending =>
        case HeadersPending => failure := Some(Exception);
        case BodyPending =>
          if message.plan.ByChunks? || message.plan.UntilEof? {
            message := message.(stage := Complete, plan := Unplanned);
          } else {
            failure := Some(Exception);
          }
        case Complete => failure := Some(OtherAssertion);
      }
      EofKeepsOk(old(View()));
      buffer := buffer + input;
      assert View() == start;
      LoopKeepsOk(start);
      var again := true;
      while again
        invariant ParserOk(View())
        invariant (if again then Loop(View()) else View()) == Loop(start)
        decreases again, Size(View()), Rank(View())
      {
        if Step(View()).Again? { StepDecreases(View()); }
        again := ParsingStep();
      }
    }

    /** `new_request_arrived` */
    method NewRequestArrived(request: Text)
      modifies this`requests
      ensures View() == Forward(old(View()), request)
    {
      requests := requests + [request];
    }

    /** `front` and `pop` */
    method Pop() returns (e: Exchange)
      requires complete != []
      modifies this`complete
      ensures [e] + complete == old(complete)
    {
      e := complete[0];
      complete := complete[1..];
    }
  }
}

/** Parse, print, parse: when what was parsed and printed again parses back to the same messages. */
module HttpReparsing {
  import opened Strings
  import opened HttpMessages
  import opened HttpParsing
  import opened HttpRoundTrip
  import Chunked

  function Texts(es: seq<Exchange>): seq<Text> {
    if es == [] then [] else [es[0].text] + Texts(es[1..])
  }

  lemma {:induction false} TextsAt(es: seq<Exchange>, i: nat)
    requires i < |es|
    ensures |Texts(es)| == |es| && Texts(es)[i] == es[i].text
  {
    if i > 0 {
      TextsAt(es[1..], i - 1);
    } else if |es| > 1 {
      TextsAt(es[1..], 0);
    }
  }

  /** A request parser answers no request. */
  ghost predicate Unpaired(p: Parser) {
    p.Running? && !p.response ==>
      p.msg.request == NO_TEXT && forall i :: 0 <= i < |p.done| ==> p.done[i].request == NO_TEXT
  }

  lemma StepUnpaired(p: Parser)
    requires Unpaired(p)
    ensures Unpaired(Step(p).parser)
  {
    hide Find, PlanFor, ParseHeader, Chunked.Reading;
  }

  lemma {:induction false} LoopUnpaired(p: Parser)
    requires Unpaired(p)
    ensures Unpaired(Loop(p))
    decreases Size(p), Rank(p)
  {
    hide Step, Unpaired;
    StepUnpaired(p);
    if Step(p).Again? {
      StepDecreases(p);
      LoopUnpaired(Step(p).parser);
    }
  }

  lemma {:induction false} ParseAllPairs(response: bool, requests: seq<Text>, pieces: seq<string>)
    requires forall i :: 0 <= i < |pieces| ==> pieces[i] != []
    ensures var p := ParseAll(Ready(response, requests), pieces);
      Unpaired(p) && Paired(p, [], requests)
  {
    hide Loop, Requests;
    if pieces == [] {
      NewIsPaired(response, requests);
    } else {
      var n := |pieces| - 1;
      ParseAllPairs(response, requests, pieces[..n]);
      var p := ParseAll(Ready(response, requests), pieces[..n]);
      LoopUnpaired(Append(p, pieces[n]));
      LoopPairs(Append(p, pieces[n]), [], requests);
    }
  }

  lemma NewIsPaired(response: bool, requests: seq<Text>)
    ensures Unpaired(Ready(response, requests)) && Paired(Ready(response, requests), [], requests)
  {
  }

  /** Exchange i carries request i, or none in a request parser. */
  ghost predicate InOrder(response: bool, es: seq<Exchange>, requests: seq<Text>) {
    && (response ==> |es| <= |requests|)
    && forall i :: 0 <= i < |es| ==> es[i].request == if response then requests[i] else NO_TEXT
  }

  lemma {:induction false} AnswersOfTexts(response: bool, es: seq<Exchange>, requests: seq<Text>)
    requires InOrder(response, es, requests)
    ensures |Texts(es)| == |es| && Answers(response, Texts(es), requests) == es
  {
    if es != [] {
      var more := if response then requests[1..] else requests;
      AnswersOfTexts(response, es[1..], more);
      assert Texts(es)[1..] == Texts(es[1..]);
      assert es == [es[0]] + es[1..];
    }
  }

  lemma DoneInOrder(p: Parser, requests: seq<Text>)
    requires p.Running? && Unpaired(p) && Paired(p, [], requests)
    ensures InOrder(p.response, p.done, requests)
  {
    hide Requests;
    if p.response {
      assert [] + Requests(p.done) == Requests(p.done);
      assert Requests(p.done) <= requests;
      if p.done != [] { RequestsAt(p.done, 0); }
      forall i | 0 <= i < |p.done| ensures p.done[i].request == requests[i] {
        RequestsAt(p.done, i);
      }
    }
  }

  /** No message that was completed has a header with a blank value. */
  predicate NoBlanks(es: seq<Exchange>) {
    forall i :: 0 <= i < |es| ==> forall j :: 0 <= j < |es[i].text.headers| ==> !Blank(es[i].text.headers[j].value)
  }

  lemma DoneIsInOrder(response: bool, requests: seq<Text>, pieces: seq<string>)
    requires forall j :: 0 <= j < |pieces| ==> pieces[j] != []
    requires ParseAll(Ready(response, requests), pieces).Running?
    ensures InOrder(response, ParseAll(Ready(response, requests), pieces).done, requests)
  {
    hide ParseAll, Unpaired, Paired, MessageClean, MessageOk;
    ParseAllClean(response, requests, pieces);
    ParseAllPairs(response, requests, pieces);
    DoneInOrder(ParseAll(Ready(response, requests), pieces), requests);
  }

  /** The first n messages are well formed if none of them has a blank header value. */
  lemma DoneIsWellFormed(response: bool, requests: seq<Text>, pieces: seq<string>, n: nat)
    requires forall j :: 0 <= j < |pieces| ==> pieces[j] != []
    requires var p := ParseAll(Ready(response, requests), pieces);
      p.Running? && n <= |p.done| && NoBlanks(p.done[..n])
    ensures var es := ParseAll(Ready(response, requests), pieces).done;
      InOrder(response, es, requests) && |Texts(es[..n])| == n && AllWellFormed(response, Texts(es[..n]), requests)
  {
    hide ParseAll, WellFormed, MessageOk, Texts;
    var es := ParseAll(Ready(response, requests), pieces).done;
    DoneIsInOrder(response, requests, pieces);
    AnswersOfTexts(response, es[..n], requests);
    forall i | 0 <= i < n
      ensures WellFormed(response, Texts(es[..n])[i], if response then requests[i].firstLine else [])
    {
      TextsAt(es[..n], i);
      assert es[..n][i] == es[i];
      ParsedMessagesAreWellFormed(response, requests, pieces, i);
    }
  }

  /** Parse, print, parse: whatever bytes arrived in whatever pieces, printing all completed
      messages, provided that no header value is blank, and parsing the result again, cut anywhere
      and for the same requests, gives exactly the same messages and leaves nothing over. */
  lemma ReparseGivesBack(response: bool, requests: seq<Text>, pieces: seq<string>, again: seq<string>)
    requires forall i :: 0 <= i < |pieces| ==> pieces[i] != []
    requires forall i :: 0 <= i < |again| ==> again[i] != []
    requires var p := ParseAll(Ready(response, requests), pieces);
      p.Running? && NoBlanks(p.done) && Chunked.Glue(again) == PrintAll(Texts(p.done))
    ensures var es := ParseAll(Ready(response, requests), pieces).done;
      && (response ==> |es| <= |requests|)
      && ParseAll(Ready(response, requests), again)
         == Running(response, [], NEW_MESSAGE, es, if response then requests[|es|..] else requests)
  {
    hide ParseAll, WellFormed, Print, Answers, NoBlanks;
    var es := ParseAll(Ready(response, requests), pieces).done;
    assert es[..|es|] == es;
    DoneIsWellFormed(response, requests, pieces, |es|);
    AnswersOfTexts(response, es, requests);
    if again == [] {
      PrintsSomething(es);
      NothingParsed(Ready(response, requests));
    } else {
      PipelinedRoundTrip(response, Texts(es), requests, again);
    }
  }

  lemma PrintsSomething(es: seq<Exchange>)
    ensures PrintAll(Texts(es)) == [] <==> es == []
  {
    if es != [] { assert PrintAll(Texts(es)) == Print(es[0].text) + PrintAll(Texts(es)[1..]); }
  }

  lemma NothingParsed(p: Parser)
    ensures ParseAll(p, []) == p
  {
  }

  // ----- a blank value does not survive -----

  /** The parser after some more messages. */
  function FinishedAll(p: Parser, ts: seq<Text>, rest: string): Parser
    requires p.Running? && (p.response ==> |ts| <= |p.requests|)
    decreases |ts|
  {
    if ts == [] then p.(buffer := rest) else FinishedAll(Finished(p, ts[0], PrintAll(ts[1..]) + rest), ts[1..], rest)
  }

  lemma {:induction false} FinishedAllFields(p: Parser, ts: seq<Text>, rest: string)
    requires p.Running? && (p.response ==> |ts| <= |p.requests|)
    ensures var q := FinishedAll(p, ts, rest);
      && q.Running? && q.response == p.response && q.buffer == rest && |q.done| == |p.done| + |ts|
      && (p.response ==> q.requests == p.requests[|ts|..])
      && (p.msg == NEW_MESSAGE ==> q.msg == NEW_MESSAGE)
    decreases |ts|
  {
    if ts != [] {
      FinishedAllFields(Finished(p, ts[0], PrintAll(ts[1..]) + rest), ts[1..], rest);
    }
  }

  /** Well-formed messages at the head of the buffer are taken whatever follows them. */
  lemma {:induction false} MessagesParse(p: Parser, ts: seq<Text>, rest: string)
    requires p.Running? && p.msg == NEW_MESSAGE && p.buffer == PrintAll(ts) + rest
    requires (p.response ==> |ts| <= |p.requests|) && AllWellFormed(p.response, ts, p.requests)
    ensures Loop(p) == Loop(FinishedAll(p, ts, rest))
    decreases |ts|
  {
    hide Loop, WellFormed, Print;
    if ts == [] {
      assert p.buffer == rest;
    } else {
      var more := PrintAll(ts[1..]) + rest;
      assert p.buffer == Print(ts[0]) + more;
      MessageParses(p, ts[0], more);
      var q := Finished(p, ts[0], more);
      assert p.response ==> forall i :: 0 <= i < |ts| - 1 ==> q.requests[i] == p.requests[i + 1];
      MessagesParse(q, ts[1..], rest);
    }
  }

  /** The k-th header of message i is h, whether that message is complete or still in progress. */
  ghost predicate Fixed(p: Parser, i: nat, k: nat, h: HttpHeader) {
    p.Running? ==>
      |p.done| >= i && (if |p.done| == i then p.msg.stage != FirstLinePending && HasHeader(p.msg.text, k, h)
                        else HasHeader(p.done[i].text, k, h))
  }

  predicate HasHeader(t: Text, k: nat, h: HttpHeader) {
    k < |t.headers| && t.headers[k] == h
  }

  lemma StepFixed(p: Parser, i: nat, k: nat, h: HttpHeader)
    requires Fixed(p, i, k, h)
    ensures Fixed(Step(p).parser, i, k, h)
  {
    hide Find, PlanFor, ParseHeader, Chunked.Reading;
  }

  lemma {:induction false} LoopFixed(p: Parser, i: nat, k: nat, h: HttpHeader)
    requires Fixed(p, i, k, h)
    ensures Fixed(Loop(p), i, k, h)
    decreases Size(p), Rank(p)
  {
    hide Step, Fixed;
    StepFixed(p, i, k, h);
    if Step(p).Again? {
      StepDecreases(p);
      LoopFixed(Step(p).parser, i, k, h);
    }
  }

  lemma {:induction false} PrintHeadersConcat(a: seq<HttpHeader>, b: seq<HttpHeader>)
    ensures PrintHeaders(a + b) == PrintHeaders(a) + PrintHeaders(b)
  {
    hide PrintHeader;
    if a == [] {
      assert a + b == b && [] + PrintHeaders(b) == PrintHeaders(b);
    } else {
      assert (a + b)[1..] == a[1..] + b;
      PrintHeadersConcat(a[1..], b);
    }
  }

  /** The printed message up to header k, that header's line, and what comes after it. */
  lemma PrintSplits(t: Text, k: nat, rest: string) returns (more: string)
    requires k < |t.headers|
    ensures Print(t) + rest
         == t.firstLine + CRLF + (PrintHeaders(t.headers[..k]) + (PrintHeader(t.headers[k]) + CRLF + more))
  {
    hide PrintHeader, PrintHeaders;
    var a, h, b := t.headers[..k], t.headers[k], t.headers[k + 1..];
    more := PrintHeaders(b) + CRLF + t.body + rest;
    assert t.headers == a + ([h] + b);
    PrintHeadersConcat(a, [h] + b);
    PrintHeadersCons(h, b);
    Regroup(t.firstLine + CRLF, PrintHeaders(a), PrintHeader(h) + CRLF, PrintHeaders(b), CRLF, t.body, rest);
  }

  lemma PrintHeadersCons(h: HttpHeader, hs: seq<HttpHeader>)
    ensures PrintHeaders([h] + hs) == PrintHeader(h) + CRLF + PrintHeaders(hs)
  {
    assert ([h] + hs)[1..] == hs;
  }

  lemma Regroup(first: string, a: string, x: string, b: string, c: string, d: string, e: string)
    ensures first + (a + (x + b)) + c + d + e == first + (a + (x + (b + c + d + e)))
  {
  }

  /** The lines of a message, all of which can be printed, up to a header that cannot be. */
  ghost predicate BreaksAt(t: Text, k: nat) {
    && k < |t.headers| && Chunked.IsLine(t.firstLine)
    && (forall j :: 0 <= j < |t.headers| ==> Chunked.IsLine(PrintHeader(t.headers[j])))
    && (forall j :: 0 <= j < k ==> Printable(t.headers[j])) && !Printable(t.headers[k])
  }

  /** Parsing a printed message whose header k cannot be printed leads to another header k. */
  lemma MessageBreaks(p: Parser, t: Text, k: nat, rest: string)
    requires p.Running? && p.msg == NEW_MESSAGE && p.buffer == Print(t) + rest && (p.response ==> p.requests != [])
    requires BreaksAt(t, k)
    ensures var q := Loop(p);
      q.Running? && |q.done| > |p.done| ==> !HasHeader(q.done[|p.done|].text, k, t.headers[k])
  {
    hide Loop, Step, Chunked.IsLine, Printable, ParseHeader, PlanFor, Print, PrintHeader, PrintHeaders;
    var h, i := t.headers[k], |p.done|;
    var more := PrintSplits(t, k, rest);
    var tail := PrintHeader(h) + CRLF + more;
    FirstLineParses(p, t.firstLine, PrintHeaders(t.headers[..k]) + tail);
    LoopStep(p);
    var q1 := Step(p).parser;
    HeadersParse(q1, t.headers[..k], tail);
    var q2 := WithHeaders(q1, t.headers[..k], tail);
    assert q2.msg.text.headers == t.headers[..k] by { assert [] + t.headers[..k] == t.headers[..k]; }
    HeaderLineParses(q2, PrintHeader(h), more);
    HeaderRoundTripIff(h);
    PrintIsLine(h);
    match ParseHeader(PrintHeader(h))
    case None =>
      LoopHalts(q2);
    case Some(g) =>
      LoopStep(q2);
      var q3 := Step(q2).parser;
      assert (t.headers[..k] + [g])[k] == g;
      LoopFixed(q3, i, k, g);
  }

  lemma PrintIsLine(h: HttpHeader)
    ensures PrintHeader(h) != []
  {
  }

  lemma LoopHalts(p: Parser)
    requires Step(p).Halt?
    ensures Loop(p) == Step(p).parser
  {
  }

  /** Message i is the first that has a blank header value, header k the first such. */
  ghost predicate FirstBlank(es: seq<Exchange>, i: nat, k: nat) {
    && i < |es| && NoBlanks(es[..i]) && k < |es[i].text.headers| && Blank(es[i].text.headers[k].value)
    && forall j :: 0 <= j < k ==> !Blank(es[i].text.headers[j].value)
  }

  lemma NoBlanksStep(es: seq<Exchange>)
    requires es != []
    ensures var n := |es| - 1;
      var hs := es[n].text.headers;
      NoBlanks(es) <==> NoBlanks(es[..n]) && !exists j :: 0 <= j < |hs| && Blank(hs[j].value)
  {
    hide Blank;
    assert forall m :: 0 <= m < |es| - 1 ==> es[m] == es[..|es| - 1][m];
  }

  lemma {:induction false} FindsBlank(es: seq<Exchange>) returns (i: nat, k: nat)
    requires !NoBlanks(es)
    ensures FirstBlank(es, i, k)
  {
    hide Blank;
    var n := |es| - 1;
    if NoBlanks(es[..n]) {
      i := n;
      var hs := es[n].text.headers;
      NoBlanksStep(es);
      k := 0;
      while !Blank(hs[k].value)
        invariant k < |hs| && forall j :: 0 <= j < k ==> !Blank(hs[j].value)
        invariant exists j :: k <= j < |hs| && Blank(hs[j].value)
        decreases |hs| - k
      {
        k := k + 1;
      }
    } else {
      i, k := FindsBlank(es[..n]);
      assert es[..n][..i] == es[..i];
    }
  }

  lemma {:induction false} PrintAllSplits(es: seq<Exchange>, i: nat)
    requires i < |es|
    ensures PrintAll(Texts(es))
         == PrintAll(Texts(es[..i])) + (Print(es[i].text) + PrintAll(Texts(es[i + 1..])))
  {
    hide Print, PrintAll, Texts;
    PrintAllCons(es);
    if i == 0 {
      assert es[..0] == [] && es[1..] == es[0 + 1..];
      PrintNothing();
    } else {
      PrintAllSplits(es[1..], i - 1);
      PrintAllCons(es[..i]);
      assert es[1..][..i - 1] == es[..i][1..] && es[1..][i..] == es[i + 1..] && es[1..][i - 1] == es[i];
      Regroup3(Print(es[0].text), PrintAll(Texts(es[..i][1..])), Print(es[i].text) + PrintAll(Texts(es[i + 1..])));
    }
  }

  lemma Regroup3(a: string, b: string, c: string)
    ensures a + (b + c) == a + b + c
  {
  }

  lemma PrintNothing()
    ensures forall s: string :: PrintAll(Texts([])) + s == s
  {
  }

  lemma PrintAllCons(es: seq<Exchange>)
    requires es != []
    ensures PrintAll(Texts(es)) == Print(es[0].text) + PrintAll(Texts(es[1..]))
  {
    hide Print;
    assert Texts(es)[1..] == Texts(es[1..]);
  }

  /** A parsed message breaks at its first blank header value when it is printed and parsed. */
  lemma BlankBreaks(response: bool, requests: seq<Text>, pieces: seq<string>, i: nat, k: nat)
    requires forall j :: 0 <= j < |pieces| ==> pieces[j] != []
    requires var p := ParseAll(Ready(response, requests), pieces); p.Running? && FirstBlank(p.done, i, k)
    ensures BreaksAt(ParseAll(Ready(response, requests), pieces).done[i].text, k)
  {
    hide ParseAll, Framed, Chunked.IsLine, NoCrlf, Printable, MessageClean, MessageOk;
    ParseAllClean(response, requests, pieces);
    var e := ParseAll(Ready(response, requests), pieces).done[i];
    assert ExchangeClean(response, e);
    IsLineIff(e.text.firstLine);
    forall j | 0 <= j < |e.text.headers|
      ensures Chunked.IsLine(PrintHeader(e.text.headers[j]))
      ensures Printable(e.text.headers[j]) <==> !Blank(e.text.headers[j].value)
    {
      assert Clean(e.text.headers[j]);
      IsLineIff(PrintHeader(e.text.headers[j]));
    }
  }

  /** The second parse takes the messages before the first blank value, and breaks there. */
  lemma StreamBreaks(response: bool, requests: seq<Text>, es: seq<Exchange>, i: nat, k: nat)
    requires FirstBlank(es, i, k) && InOrder(response, es, requests) && BreaksAt(es[i].text, k)
    requires |Texts(es[..i])| == i && AllWellFormed(response, Texts(es[..i]), requests)
    ensures var q := Loop(Append(Ready(response, requests), PrintAll(Texts(es))));
      !(q.Running? && q.done == es)
  {
    hide Loop, AllWellFormed, PrintAll, Texts, BreaksAt, Print, NoBlanks, FinishedAll;
    var stream, p0 := PrintAll(Texts(es)), Ready(response, requests);
    var p, rest := Append(p0, stream), Print(es[i].text) + PrintAll(Texts(es[i + 1..]));
    PrintAllSplits(es, i);
    assert [] + stream == stream;
    MessagesParse(p, Texts(es[..i]), rest);
    FinishedAllFields(p, Texts(es[..i]), rest);
    MessageBreaks(FinishedAll(p, Texts(es[..i]), rest), es[i].text, k, PrintAll(Texts(es[i + 1..])));
  }

  /** Parse, print, parse gives the same messages exactly when no header value is blank: a blank
      value gains a blank each time. */
  lemma ReparseGivesBackIff(response: bool, requests: seq<Text>, pieces: seq<string>, again: seq<string>)
    requires forall i :: 0 <= i < |pieces| ==> pieces[i] != []
    requires forall i :: 0 <= i < |again| ==> again[i] != []
    requires var p := ParseAll(Ready(response, requests), pieces);
      p.Running? && Chunked.Glue(again) == PrintAll(Texts(p.done))
    ensures var p, q := ParseAll(Ready(response, requests), pieces), ParseAll(Ready(response, requests), again);
      q.Running? && q.done == p.done <==> NoBlanks(p.done)
  {
    hide ParseAll, PrintAll, Loop, AllWellFormed, BreaksAt, Texts;
    var es := ParseAll(Ready(response, requests), pieces).done;
    if NoBlanks(es) {
      ReparseGivesBack(response, requests, pieces, again);
    } else {
      var i, k := FindsBlank(es);
      DoneIsWellFormed(response, requests, pieces, i);
      BlankBreaks(response, requests, pieces, i, k);
      PrintsSomething(es);
      StreamBreaks(response, requests, es, i, k);
      NewIsClean(response, requests);
      GlueOfNothing();
      AnyFragmentation(Ready(response, requests), again);
    }
  }

  lemma GlueOfNothing()
    ensures Chunked.Glue([]) == []
  {
  }

  /** A header line without a value, which the parser accepts, comes back with a blank. */
  lemma EmptyValueGainsBlank()
    ensures ParseHeader("X:") == Some(HttpHeader("X", ""))
    ensures ParseHeader(PrintHeader(HttpHeader("X", ""))) == Some(HttpHeader("X", " "))
  {
    hide Find;
    FirstColon("X", "");
    FirstColon("X", " ");
    assert "X" + ":" + "" == "X:" && "X" + ":" + " " == "X: ";
    assert PrintHeader(HttpHeader("X", "")) == "X: ";
    assert "X:"[..1] == "X" && "X:"[2..] == "" && "X: "[..1] == "X" && "X: "[2..] == " ";
    assert SkipBlanks(" ") == SkipBlanks("") by { assert " "[1..] == ""; }
  }
}

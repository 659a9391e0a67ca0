/** HTTP/1.1 messages: header lines, header lookup and the length rules of section 4.4 of RFC 2616. */
module HttpMessages {
  import opened Strings
  import opened Chunked

  datatype HttpHeader = HttpHeader(key: string, value: string)

  /** A message as text: what `str` prints and what a complete message holds. */
  datatype Text = Text(firstLine: string, headers: seq<HttpHeader>, body: string)

  function SkipBlanks(s: string): string {
    if s != [] && s[0] == ' ' then SkipBlanks(s[1..]) else s
  }

  /** The constructor of `HTTPHeader`: split at the first colon, strip blanks unless that
      would leave nothing. */
  function ParseHeader(line: string): Option<HttpHeader> {
    var colon := Find(line, ":");
    if colon < 0 then None
    else
      var rest := line[colon + 1..];
      var value := SkipBlanks(rest);
      Some(HttpHeader(line[..colon], if value == [] then rest else value))
  }

  function PrintHeader(h: HttpHeader): string {
    h.key + ": " + h.value
  }

  /** A key without a colon and a value that does not begin with a blank and is not empty. */
  predicate Printable(h: HttpHeader) {
    ':' !in h.key && h.value != [] && h.value[0] != ' '
  }

  lemma {:induction false} SkipBlanksIsSuffix(s: string)
    ensures var v := SkipBlanks(s);
      |v| <= |s| && v == s[|s| - |v|..] && (v != [] ==> v[0] != ' ')
  {
    if s != [] && s[0] == ' ' { SkipBlanksIsSuffix(s[1..]); }
  }

  lemma FirstColon(key: string, rest: string)
    requires ':' !in key
    ensures Find(key + ":" + rest, ":") == |key|
  {
    hide Find;
    var s := key + ":" + rest;
    FindIsFirst(s, ":");
    assert At(s, ":", |key|);
    forall j | 0 <= j < |key| ensures !At(s, ":", j) {
      assert s[j..j + 1] == [key[j]] && key[j] in key;
    }
  }

  /** Parsing a printed header gives it back exactly when the header is printable. */
  lemma HeaderRoundTripIff(h: HttpHeader)
    ensures ParseHeader(PrintHeader(h)) == Some(h) <==> Printable(h)
  {
    hide Find;
    var line := PrintHeader(h);
    if ':' !in h.key {
      FirstColon(h.key, " " + h.value);
      assert line == h.key + ":" + (" " + h.value);
      var rest := line[|h.key| + 1..];
      assert rest == " " + h.value && rest[1..] == h.value;
      SkipBlanksIsSuffix(rest);
      SkipBlanksIsSuffix(h.value);
      assert SkipBlanks(rest) == SkipBlanks(h.value) && line[..|h.key|] == h.key;
      assert |rest| == |h.value| + 1;
    } else {
      KeysHaveNoColon(line);
    }
  }

  /** A parsed header has no colon in its key, and is printable unless its value is blank. */
  lemma KeysHaveNoColon(line: string)
    ensures match ParseHeader(line)
      case None => true
      case Some(h) => ':' !in h.key && (Printable(h) <==> exists i :: 0 <= i < |h.value| && h.value[i] != ' ')
  {
    hide Find;
    FindIsFirst(line, ":");
    var colon := Find(line, ":");
    if colon >= 0 {
      var key, rest := line[..colon], line[colon + 1..];
      forall i | 0 <= i < |key| ensures key[i] != ':' {
        assert !At(line, ":", i) && line[i..i + 1] == [line[i]];
      }
      SkipBlanksIsSuffix(rest);
      AllBlank(rest);
    }
  }

  lemma {:induction false} AllBlank(s: string)
    ensures SkipBlanks(s) == [] <==> forall i :: 0 <= i < |s| ==> s[i] == ' '
  {
    if s != [] && s[0] == ' ' {
      AllBlank(s[1..]);
      assert forall i :: 1 <= i < |s| ==> s[i] == s[1..][i - 1];
    }
  }

  // ----- header lookup -----

  function Lower(c: char): char {
    if 'A' <= c <= 'Z' then (c as nat + 32) as char else c
  }

  /** `equivalent_strings`: equal up to leading blanks and ASCII case. */
  predicate Equivalent(a: string, b: string) {
    var x, y := SkipBlanks(a), SkipBlanks(b);
    |x| == |y| && forall i :: 0 <= i < |x| ==> Lower(x[i]) == Lower(y[i])
  }

  /** The value of the first header of that name. */
  function Lookup(hs: seq<HttpHeader>, name: string): Option<string> {
    if hs == [] then None
    else if Equivalent(hs[0].key, name) then Some(hs[0].value)
    else Lookup(hs[1..], name)
  }

  // ----- how long the body is -----

  datatype Plan = Unplanned | Known(size: nat) | ByChunks(chunker: Chunker) | UntilEof

  predicate StartsWith(s: string, prefix: string) {
    |s| >= |prefix| && s[..|prefix|] == prefix
  }

  predicate IsHead(requestLine: string) {
    StartsWith(requestLine, "HEAD ")
  }

  /** A `long` converted to `size_t`. */
  function ContentLength(value: string): Option<Plan> {
    match Atoi(value, 10)
    case None => None
    case Some(n) => Some(Known(if n >= 0 then n else n + 0x1_0000_0000_0000_0000))
  }

  /** `HTTPRequest::calculate_expected_body_size`; None is an exception. */
  function RequestPlan(firstLine: string, hs: seq<HttpHeader>): Option<Plan> {
    if StartsWith(firstLine, "GET ") || StartsWith(firstLine, "HEAD ") then Some(Known(0))
    else if StartsWith(firstLine, "POST ") then
      match Lookup(hs, "Content-Length")
      case None => None
      case Some(v) => ContentLength(v)
    else None
  }

  function StatusCode(firstLine: string): Option<string> {
    var tokens := Split(firstLine, ' ');
    if |tokens| < 3 then None else Some(tokens[1])
  }

  function LastToken(s: string): string {
    var tokens := Split(s, ',');
    tokens[|tokens| - 1]
  }

  /** `HTTPResponse::calculate_expected_body_size`, rules 1 to 5; None is an exception. */
  function ResponsePlan(firstLine: string, hs: seq<HttpHeader>, requestLine: string): Option<Plan> {
    match StatusCode(firstLine)
    case None => None
    case Some(code) =>
      var coding := Lookup(hs, "Transfer-Encoding");
      if code == [] then None
      else if code[0] == '1' || code == "204" || code == "304" || IsHead(requestLine) then Some(Known(0))
      else if coding.Some? && Equivalent(LastToken(coding.value), "chunked") then
        Some(ByChunks(Fresh(Lookup(hs, "Trailer").Some?)))
      else if coding.None? && Lookup(hs, "Content-Length").Some? then
        ContentLength(Lookup(hs, "Content-Length").value)
      else match Lookup(hs, "Content-Type")
        case None => Some(UntilEof)
        case Some(v) =>
          var mime := Split(v, ';')[0];
          if mime == [] || Equivalent(mime, "multipart/byteranges") then None else Some(UntilEof)
  }

  function PlanFor(response: bool, firstLine: string, hs: seq<HttpHeader>, requestLine: string): Option<Plan> {
    if response then ResponsePlan(firstLine, hs, requestLine) else RequestPlan(firstLine, hs)
  }

  /** A plan is a known size, a new chunk parser or everything up to the end of the connection;
      requests always have a known size. */
  lemma PlanShapes(response: bool, firstLine: string, hs: seq<HttpHeader>, requestLine: string)
    ensures match PlanFor(response, firstLine, hs, requestLine)
      case None => true
      case Some(plan) =>
        plan.Known?
        || (response && (plan == UntilEof || plan == ByChunks(Fresh(false)) || plan == ByChunks(Fresh(true))))
  {
  }
}

/** The header lookup and the length rules of section 4.4 of RFC 2616, each on its own terms. */
module HttpRules {
  import opened Strings
  import opened Numbers
  import opened HttpMessages
  import opened Chunked

  // ----- names and lookup -----

  /** The same character up to ASCII case. */
  predicate SameLetter(x: char, y: char) {
    || x == y
    || (65 <= x as int <= 90 && y as int == x as int + 32)
    || (65 <= y as int <= 90 && x as int == y as int + 32)
  }

  lemma LowerIff(x: char, y: char)
    ensures Lower(x) == Lower(y) <==> SameLetter(x, y)
  {
  }

  predicate AllBlanks(s: string) {
    forall i :: 0 <= i < |s| ==> s[i] == ' '
  }

  lemma {:induction false} SkipsBlanks(blanks: string, s: string)
    requires AllBlanks(blanks) && (s != [] ==> s[0] != ' ')
    ensures SkipBlanks(blanks + s) == s
  {
    if blanks == [] {
      assert blanks + s == s;
    } else {
      assert (blanks + s)[1..] == blanks[1..] + s;
      SkipsBlanks(blanks[1..], s);
    }
  }

  /** Strings are equivalent exactly when they are the same up to leading blanks and ASCII case. */
  lemma EquivalentIff(blanksA: string, a: string, blanksB: string, b: string)
    requires AllBlanks(blanksA) && AllBlanks(blanksB) && (a != [] ==> a[0] != ' ') && (b != [] ==> b[0] != ' ')
    ensures Equivalent(blanksA + a, blanksB + b) <==>
      |a| == |b| && forall i :: 0 <= i < |a| ==> SameLetter(a[i], b[i])
  {
    hide SkipBlanks, Lower, SameLetter;
    SkipsBlanks(blanksA, a);
    SkipsBlanks(blanksB, b);
    if |a| == |b| {
      forall i | 0 <= i < |a| ensures Lower(a[i]) == Lower(b[i]) <==> SameLetter(a[i], b[i]) {
        LowerIff(a[i], b[i]);
      }
    }
  }

  /** Header i is the first with that name. */
  ghost predicate IsFirst(hs: seq<HttpHeader>, name: string, i: nat) {
    i < |hs| && Equivalent(hs[i].key, name) && forall j :: 0 <= j < i ==> !Equivalent(hs[j].key, name)
  }

  ghost predicate Has(hs: seq<HttpHeader>, name: string) {
    exists i :: 0 <= i < |hs| && Equivalent(hs[i].key, name)
  }

  /** Lookup finds the first header of that name, and nothing exactly when there is none. */
  lemma {:induction false} LookupIff(hs: seq<HttpHeader>, name: string)
    ensures forall i: nat :: IsFirst(hs, name, i) ==> Lookup(hs, name) == Some(hs[i].value)
    ensures Lookup(hs, name).Some? <==> Has(hs, name)
  {
    hide Equivalent;
    if hs != [] {
      LookupIff(hs[1..], name);
      assert forall j :: 1 <= j < |hs| ==> hs[j] == hs[1..][j - 1];
      forall i: nat | IsFirst(hs, name, i) ensures Lookup(hs, name) == Some(hs[i].value) {
        if i > 0 { assert IsFirst(hs[1..], name, i - 1); }
      }
    }
  }

  // ----- header lines -----

  lemma FirstOf(key: string, c: char, rest: string)
    requires c !in key
    ensures Find(key + [c] + rest, [c]) == |key|
  {
    hide Find;
    var s := key + [c] + rest;
    FindIsFirst(s, [c]);
    assert At(s, [c], |key|);
    forall j | 0 <= j < |key| ensures !At(s, [c], j) {
      assert s[j..j + 1] == [key[j]] && key[j] in key;
    }
  }

  /** A header line is split at its first colon, and blanks before a value are dropped. */
  lemma HeaderLine(key: string, blanks: string, value: string)
    requires ':' !in key && AllBlanks(blanks) && value != [] && value[0] != ' '
    ensures ParseHeader(key + ":" + (blanks + value)) == Some(HttpHeader(key, value))
  {
    hide Find, SkipBlanks;
    var line := key + ":" + (blanks + value);
    FirstOf(key, ':', blanks + value);
    SkipsBlanks(blanks, value);
    assert line[..|key|] == key && line[|key| + 1..] == blanks + value;
  }

  lemma NoColonNoHeader(line: string)
    requires ':' !in line
    ensures ParseHeader(line) == None
  {
    hide Find;
    AbsentChar(line, ':');
  }

  // ----- tokens -----

  /** The pieces with one more character in front. */
  function Prepend(x: char, c: char, ts: seq<string>): seq<string>
    requires ts != []
  {
    if x == c then [[]] + ts else [[x] + ts[0]] + ts[1..]
  }

  lemma PrependConcat(x: char, c: char, ts: seq<string>, us: seq<string>)
    requires ts != []
    ensures Prepend(x, c, ts + us) == Prepend(x, c, ts) + us
  {
    assert (ts + us)[0] == ts[0] && (ts + us)[1..] == ts[1..] + us;
  }

  lemma SplitCons(s: string, c: char)
    requires s != []
    ensures Split(s, c) == Prepend(s[0], c, Split(s[1..], c))
  {
  }

  lemma {:induction false} SplitConcat(a: string, b: string, c: char)
    ensures Split(a + [c] + b, c) == Split(a, c) + Split(b, c)
  {
    hide Split, Prepend;
    var w := a + [c] + b;
    if a == [] {
      assert w == a + [c] + b;
      SplitPrefix(a, b, c);
      SplitAtom(a, c);
    } else {
      assert w[1..] == a[1..] + [c] + b;
      SplitConcat(a[1..], b, c);
      SplitCons(a, c);
      SplitCons(w, c);
      PrependConcat(a[0], c, Split(a[1..], c), Split(b, c));
    }
  }

  /** A list of codings ends with `last`. */
  predicate EndsWith(value: string, list: string, last: string) {
    value == list + last && ',' !in last && (list == [] || list[|list| - 1] == ',')
  }

  lemma LastTokenIs(value: string, list: string, last: string)
    requires EndsWith(value, list, last)
    ensures LastToken(value) == last
  {
    hide Split;
    SplitAtom(last, ',');
    if list == [] {
      assert value == last;
    } else {
      var a := list[..|list| - 1];
      assert value == a + [','] + last;
      SplitConcat(a, last, ',');
    }
  }

  /** A media type stands before the first semicolon. */
  predicate IsMime(value: string, mime: string) {
    ';' !in mime && |mime| <= |value| && value[..|mime|] == mime && (|value| > |mime| ==> value[|mime|] == ';')
  }

  lemma FirstTokenIs(value: string, mime: string)
    requires IsMime(value, mime)
    ensures Split(value, ';')[0] == mime
  {
    hide Split;
    if |value| == |mime| {
      assert value == mime;
      SplitAtom(mime, ';');
    } else {
      assert value == mime + [';'] + value[|mime| + 1..];
      SplitPrefix(mime, value[|mime| + 1..], ';');
    }
  }

  /** The status code is the second word of a status line of at least three. */
  lemma StatusIs(version: string, code: string, reason: string)
    requires ' ' !in version && ' ' !in code
    ensures StatusCode(version + " " + code + " " + reason) == Some(code)
    ensures StatusCode(version + " " + code) == None && StatusCode(version) == None
  {
    hide Split;
    var line := version + " " + code + " " + reason;
    SplitPrefix(version, code + " " + reason, ' ');
    SplitPrefix(code, reason, ' ');
    assert line == version + " " + (code + " " + reason);
    SplitPrefix(version, code, ' ');
    SplitAtom(code, ' ');
    SplitAtom(version, ' ');
    assert ([version] + ([code] + Split(reason, ' ')))[1] == code;
  }

  // ----- the rules for responses -----

  function StatusLine(version: string, code: string, reason: string): string {
    version + " " + code + " " + reason
  }

  /** Rule 1: what never has a body. */
  predicate Bodyless(code: string, requestLine: string) {
    || (code != [] && code[0] == '1') || code == "204" || code == "304"
    || (|requestLine| >= 5 && requestLine[..5] == "HEAD ")
  }

  /** The words of a status line, with a code. */
  predicate IsStatus(version: string, code: string) {
    ' ' !in version && ' ' !in code && code != []
  }

  lemma RuleOne(version: string, code: string, reason: string, hs: seq<HttpHeader>, requestLine: string)
    requires IsStatus(version, code) && Bodyless(code, requestLine)
    ensures PlanFor(true, StatusLine(version, code, reason), hs, requestLine) == Some(Known(0))
  {
    hide StatusCode, Lookup, LastToken, Equivalent;
    StatusIs(version, code, reason);
  }

  /** Rule 2: the last coding is chunked. */
  ghost predicate LastCodingIsChunked(hs: seq<HttpHeader>, i: nat, list: string, last: string) {
    IsFirst(hs, "Transfer-Encoding", i) && EndsWith(hs[i].value, list, last) && Equivalent(last, "chunked")
  }

  lemma RuleTwo(version: string, code: string, reason: string, hs: seq<HttpHeader>, requestLine: string,
                i: nat, list: string, last: string)
    requires IsStatus(version, code) && !Bodyless(code, requestLine) && LastCodingIsChunked(hs, i, list, last)
    ensures PlanFor(true, StatusLine(version, code, reason), hs, requestLine)
         == Some(ByChunks(Fresh(Has(hs, "Trailer"))))
  {
    hide StatusCode, Lookup, LastToken, Equivalent;
    StatusIs(version, code, reason);
    LookupIff(hs, "Transfer-Encoding");
    LookupIff(hs, "Trailer");
    LastTokenIs(hs[i].value, list, last);
  }

  /** Rule 3: a Content-Length without a Transfer-Encoding, in decimal. */
  lemma RuleThree(version: string, code: string, reason: string, hs: seq<HttpHeader>, requestLine: string,
                  i: nat, n: nat)
    requires IsStatus(version, code) && !Bodyless(code, requestLine) && !Has(hs, "Transfer-Encoding")
    requires IsFirst(hs, "Content-Length", i) && hs[i].value == Decimal(n) && n < 0x8000_0000_0000_0000
    ensures PlanFor(true, StatusLine(version, code, reason), hs, requestLine) == Some(Known(n))
  {
    hide StatusCode, Lookup, LastToken, Equivalent, Atoi, Decimal;
    StatusIs(version, code, reason);
    LookupIff(hs, "Transfer-Encoding");
    LookupIff(hs, "Content-Length");
    DecimalRoundTrip(n);
  }

  /** A Content-Length that is no number throws, and a negative one is taken modulo 2^64. */
  lemma RuleThreeOdd(version: string, code: string, reason: string, hs: seq<HttpHeader>, requestLine: string, i: nat)
    requires IsStatus(version, code) && !Bodyless(code, requestLine) && !Has(hs, "Transfer-Encoding")
    requires IsFirst(hs, "Content-Length", i)
    ensures var plan := PlanFor(true, StatusLine(version, code, reason), hs, requestLine);
      match Atoi(hs[i].value, 10)
      case None => plan == None
      case Some(n) => plan == Some(Known(n % 0x1_0000_0000_0000_0000))
  {
    hide StatusCode, Lookup, LastToken, Equivalent, Atoi;
    StatusIs(version, code, reason);
    LookupIff(hs, "Transfer-Encoding");
    LookupIff(hs, "Content-Length");
    AtoiIsLong(hs[i].value, 10);
  }

  lemma AtoiIsLong(s: string, base: nat)
    ensures match Atoi(s, base)
      case None => true
      case Some(n) => -0x8000_0000_0000_0000 <= n < 0x8000_0000_0000_0000
  {
  }

  /** Neither rule 2 nor rule 3 applies. */
  ghost predicate NoLength(hs: seq<HttpHeader>) {
    if Has(hs, "Transfer-Encoding") then
      forall i: nat, list, last ::
        IsFirst(hs, "Transfer-Encoding", i) && EndsWith(hs[i].value, list, last) ==> !Equivalent(last, "chunked")
    else !Has(hs, "Content-Length")
  }

  /** Rules 4 and 5: multipart/byteranges, or no type in a Content-Type header, throws; every other
      body goes to the end of the connection. */
  lemma RuleFour(version: string, code: string, reason: string, hs: seq<HttpHeader>, requestLine: string,
                 i: nat, mime: string)
    requires IsStatus(version, code) && !Bodyless(code, requestLine) && NoLength(hs)
    requires IsFirst(hs, "Content-Type", i) && IsMime(hs[i].value, mime)
    ensures PlanFor(true, StatusLine(version, code, reason), hs, requestLine)
         == if mime == [] || Equivalent(mime, "multipart/byteranges") then None else Some(UntilEof)
  {
    hide StatusCode, Lookup, LastToken, Equivalent, NoLength, Split;
    StatusIs(version, code, reason);
    NoLengthMeans(hs);
    LookupIff(hs, "Content-Type");
    FirstTokenIs(hs[i].value, mime);
  }

  lemma RuleFive(version: string, code: string, reason: string, hs: seq<HttpHeader>, requestLine: string)
    requires IsStatus(version, code) && !Bodyless(code, requestLine) && NoLength(hs) && !Has(hs, "Content-Type")
    ensures PlanFor(true, StatusLine(version, code, reason), hs, requestLine) == Some(UntilEof)
  {
    hide StatusCode, Lookup, LastToken, Equivalent, NoLength, Split;
    StatusIs(version, code, reason);
    NoLengthMeans(hs);
    LookupIff(hs, "Content-Type");
  }

  lemma {:induction false} FirstExists(hs: seq<HttpHeader>, name: string) returns (i: nat)
    requires Has(hs, name)
    ensures IsFirst(hs, name, i)
  {
    hide Equivalent;
    if Equivalent(hs[0].key, name) {
      i := 0;
    } else {
      assert forall j :: 1 <= j < |hs| ==> hs[j] == hs[1..][j - 1];
      i := FirstExists(hs[1..], name);
      i := i + 1;
    }
  }

  lemma {:induction false} LastCut(value: string) returns (list: string, last: string)
    ensures EndsWith(value, list, last)
  {
    if value == [] {
      list, last := [], [];
    } else {
      var n := |value| - 1;
      if value[n] == ',' {
        list, last := value, [];
      } else {
        list, last := LastCut(value[..n]);
        last := last + [value[n]];
      }
    }
  }

  lemma NoLengthMeans(hs: seq<HttpHeader>)
    requires NoLength(hs)
    ensures var coding := Lookup(hs, "Transfer-Encoding");
      if coding.Some? then !Equivalent(LastToken(coding.value), "chunked") else Lookup(hs, "Content-Length").None?
  {
    hide Equivalent, Lookup, LastToken, EndsWith, IsFirst;
    LookupIff(hs, "Transfer-Encoding");
    LookupIff(hs, "Content-Length");
    if Has(hs, "Transfer-Encoding") {
      var i := FirstExists(hs, "Transfer-Encoding");
      assert i < |hs| by { FirstIsHeader(hs, "Transfer-Encoding", i); }
      var list, last := LastCut(hs[i].value);
      LastTokenIs(hs[i].value, list, last);
    }
  }

  lemma FirstIsHeader(hs: seq<HttpHeader>, name: string, i: nat)
    requires IsFirst(hs, name, i)
    ensures i < |hs|
  {
  }

  /** A status line of fewer than three words, or with an empty second one, throws. */
  lemma BadStatusThrows(version: string, code: string, reason: string, hs: seq<HttpHeader>, requestLine: string)
    requires ' ' !in version && ' ' !in code
    ensures PlanFor(true, version, hs, requestLine) == None
    ensures PlanFor(true, version + " " + code, hs, requestLine) == None
    ensures code == [] ==> PlanFor(true, StatusLine(version, code, reason), hs, requestLine) == None
  {
    hide StatusCode, Lookup, LastToken, Equivalent, Split;
    StatusIs(version, code, reason);
  }

  // ----- the rules for requests -----

  /** GET and HEAD have no body; POST has the length its Content-Length says and throws without
      one; every other method throws. */
  lemma RequestRules(rest: string, hs: seq<HttpHeader>, i: nat, n: nat, line: string, requestLine: string)
    ensures PlanFor(false, "GET " + rest, hs, requestLine) == Some(Known(0))
    ensures PlanFor(false, "HEAD " + rest, hs, requestLine) == Some(Known(0))
    ensures IsFirst(hs, "Content-Length", i) && hs[i].value == Decimal(n) && n < 0x8000_0000_0000_0000 ==>
      PlanFor(false, "POST " + rest, hs, requestLine) == Some(Known(n))
    ensures !Has(hs, "Content-Length") ==> PlanFor(false, "POST " + rest, hs, requestLine) == None
    ensures !("GET " <= line) && !("HEAD " <= line) && !("POST " <= line) ==>
      PlanFor(false, line, hs, requestLine) == None
  {
    hide Lookup, Equivalent, Atoi, Decimal;
    LookupIff(hs, "Content-Length");
    if n < 0x8000_0000_0000_0000 { DecimalRoundTrip(n); }
    var post := "POST " + rest;
    assert post[..5] == "POST " && post[..4] == "POST" && ("GET " + rest)[..4] == "GET ";
    assert ("HEAD " + rest)[..5] == "HEAD ";
  }

  // ----- chunk sizes -----

  /** The size of a chunk is its hexadecimal digits, of either case, before a semicolon or blank,
      cut down to 32 bits; what follows is ignored. */
  lemma ChunkSizeIs(digits: string, tail: string)
    requires digits != [] && AllDigits(digits, 16) && Value(digits, 16) < 0x8000_0000_0000_0000
    requires tail == [] || tail[0] == ';' || tail[0] == ' '
    ensures ChunkSize(digits + tail) == Some(Value(digits, 16) % 0x1_0000_0000)
  {
    hide Before, Atoi, Value;
    DigitsArePlain(digits);
    AtoiForms("", "", "", digits, 16);
    assert "" + "" + "" + digits == digits;
    if tail == [] || tail[0] == ';' {
      BeforeIs(digits, tail, ';');
      BeforeIs(digits, [], ' ');
      assert digits + [] == digits;
    } else {
      var rest := BeforeLater(digits, tail, ';');
      BeforeIs(digits, rest, ' ');
    }
  }

  lemma DigitsArePlain(digits: string)
    requires AllDigits(digits, 16)
    ensures ';' !in digits && ' ' !in digits
  {
  }

  lemma BeforeIs(s: string, tail: string, c: char)
    requires c !in s && (tail == [] || tail[0] == c)
    ensures Before(s + tail, c) == s
  {
    hide Find;
    if tail == [] {
      assert s + tail == s;
      AbsentChar(s, c);
    } else {
      assert s + tail == s + [c] + tail[1..];
      FirstOf(s, c, tail[1..]);
      assert (s + tail)[..|s|] == s;
    }
  }

  /** A first c can stand only behind a part without c and the next character, if that is not c. */
  lemma BeforeLater(s: string, tail: string, c: char) returns (rest: string)
    requires c !in s && tail != [] && tail[0] != c
    ensures rest != [] && rest[0] == tail[0] && Before(s + tail, c) == s + rest
  {
    hide Find;
    var line := s + tail;
    var i := Find(line, [c]);
    FindIsFirst(line, [c]);
    if i < 0 {
      rest := tail;
    } else {
      assert line[i..i + 1] == [line[i]];
      assert forall j :: 0 <= j < |s| ==> line[j] == s[j] && s[j] in s;
      assert i > |s|;
      rest := tail[..i - |s|];
      assert line[..i] == s + rest;
    }
  }
}

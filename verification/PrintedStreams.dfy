/** Printed requests, one after the other, cut anywhere: what the parser hands to the handler is what was printed. */
module PrintedStreams {
  import opened Text
  import opened Uri
  import opened Headers
  import opened Checks
  import opened ChunkDecoder
  import opened ChunkedMessage
  import opened Parser
  import opened SplitIndependence
  import opened Pipelining
  import opened Framing
  import opened PrintedRequests
  import opened Stream

  /** A request as a client prints it, without a body or with a Content-Length. */
  datatype Printed = Plain(line: string, fields: seq<Sent>) | WithBody(line: string, fields: seq<Sent>, body: string)

  function AllFields(q: Printed): seq<Sent> {
    match q
    case Plain(_, fields) => fields
    case WithBody(_, fields, body) => SizedFields(fields, |body|)
  }

  function BodyOf(q: Printed): string {
    if q.WithBody? then q.body else ""
  }

  function Print(q: Printed): string {
    RequestHead(q.line, AllFields(q)) + BodyOf(q)
  }

  /** A start line the parser accepts, and fields it accepts of which none frames a body; the head no longer than
      one that can be cut anywhere. */
  predicate GoodRequest(q: Printed) {
    && '\r' !in q.line && CheckLine(q.line).GoodLine? && (q.WithBody? <==> CheckLine(q.line).line.verb == "POST")
    && CommonFields(q.fields) && |RequestHead(q.line, AllFields(q))| <= MAX_HEADER + 1 && |Print(q)| <= MAX_BUFFER
  }

  /** What the handler is to be given. */
  function Intended(q: Printed): Request {
    var line := CheckLine(q.line);
    Request(if line.GoodLine? then Some(line.line) else None, CheckedFields(AllFields(q)).headers, BodyOf(q))
  }

  function CheckedFields(fields: seq<Sent>): Fields {
    SetLength(CheckAll(FRESH_FIELDS.(headers := Meaning(fields, map[], KEPT)))).fields
  }

  lemma ContentTypeKeepsFraming(f: Fields)
    ensures var g := CheckContentType(f).fields;
      g.contentLengthExists == f.contentLengthExists && g.transferEncodingExists == f.transferEncodingExists
  {
    hide BadCharset, BadBoundary, MediaType, DirectiveParts, Directives;
  }

  lemma PlainChecks(m: Map)
    requires Acceptable(m)
    ensures var c := SetLength(CheckAll(FRESH_FIELDS.(headers := m)));
      c.ok && !c.fields.transferEncodingExists && c.fields.expected == 0
  {
    Accepted3(m);
    var f := FRESH_FIELDS.(headers := m);
    var g := CheckConnection(CheckHost(f).fields).fields;
    assert !g.contentLengthExists;
    hide CheckHost, CheckConnection, CheckLocation, CheckContentType;
    ContentTypeKeepsFraming(g.(transferEncodingExists := false));
  }

  /** A head that wants no body, and what it says. */
  predicate PlainHead(head: string, n: nat, line: RequestLine, f: Fields) {
    && |head| <= MAX_BUFFER && Find(head, CRLF, 0) == Some(n) && Find(head, CRLF2, n + 2) == Some(|head| - 4)
    && CheckLine(head[..n]) == GoodLine(line) && line.verb != "POST"
    && CheckBlock(FRESH_FIELDS, head[n + 2..|head| - 4]) == Check(true, f) && f.expected == 0
  }

  lemma PlainWhole(head: string, n: nat, line: RequestLine, f: Fields)
    requires PlainHead(head, n, line, f)
    ensures Feed(FRESH_PARSER, head) ==
      (Ok, FRESH_PARSER.(phase := Complete, startLine := Some(line), fields := f, buffer := head, pos := |head|))
  {
    hide CheckLine, CheckBlock, At, Find, Turn;
    assert Appended(FRESH_PARSER, head) == FRESH_PARSER.(buffer := head);
    TwoTurns(head, n, line);
    var p1 := FRESH_PARSER.(buffer := head, pos := n + 2, startLine := Some(line), phase := HeaderBlock);
    HeaderTurnIs(p1, |head| - 4);
    DriveStep(p1, p1.(pos := |head|, fields := f, phase := Complete));
  }

  lemma PrintedPlain(q: Printed)
    requires GoodRequest(q) && q.Plain?
    ensures var (v, p) := Feed(FRESH_PARSER, Print(q));
      v.Ok? && p.pos == |Print(q)| && !p.fields.transferEncodingExists && RequestOf(p) == Intended(q)
  {
    hide CheckLine, CheckAll, SetLength, KEPT, At, Find, RequestHead, PrintBlock, Meaning, Acceptable, GoodField, Feed;
    var head := RequestHead(q.line, q.fields);
    assert Print(q) == head + "" == head;
    PrintedShape(q.line, q.fields);
    Headers.PrintThenRead(q.fields, map[], KEPT);
    PlainChecks(Meaning(q.fields, map[], KEPT));
    PlainWhole(head, |q.line|, CheckLine(q.line).line, CheckedFields(q.fields));
  }

  lemma PrintedSized(q: Printed)
    requires GoodRequest(q) && q.WithBody?
    ensures var (v, p) := Feed(FRESH_PARSER, Print(q));
      v.Ok? && p.pos == |Print(q)| && !p.fields.transferEncodingExists && RequestOf(p) == Intended(q)
  {
    hide CheckLine, CheckAll, SetLength, KEPT, At, Find, RequestHead, PrintBlock, Meaning, Acceptable, GoodField,
        Feed, AtBody;
    var p := SizedHead(q.line, q.fields, |q.body|);
    SizedWhole(RequestHead(q.line, AllFields(q)), p, q.body);
  }

  /** The head of a printed request ends where its fields end. */
  lemma PrintedHeadEnd(q: Printed)
    requires GoodRequest(q)
    ensures HeadEnd(Print(q)) == |RequestHead(q.line, AllFields(q))|
  {
    hide CheckLine, KEPT, At, Find, RequestHead, PrintBlock, Acceptable, GoodName, PrintDecimal;
    GoodAllFields(q);
    var head := RequestHead(q.line, AllFields(q));
    PrintedShape(q.line, AllFields(q));
    hide GoodRequest, GoodFields, AllFields;
    HeadEndIs(head, BodyOf(q), |q.line|);
  }

  lemma GoodAllFields(q: Printed)
    requires GoodRequest(q)
    ensures AllFields(q) != [] && GoodFields(AllFields(q))
  {
    hide CheckLine, KEPT, RequestHead, Acceptable, GoodField, GoodFields, PrintDecimal, Print, Note;
    if q.WithBody? {
      LengthField(|q.body|, map[]);
      OneMoreField(q.fields, Sent("Content-Length", PrintDecimal(|q.body|)));
    }
  }

  lemma HeadEndIs(head: string, body: string, n: nat)
    requires Find(head, CRLF, 0) == Some(n) && Find(head, CRLF2, n + 2) == Some(|head| - 4)
    ensures HeadEnd(head + body) == |head|
  {
    hide At, Find;
    FindExtend(head, body, CRLF, 0);
    FindExtend(head, body, CRLF2, n + 2);
  }

  /** A printed request is taken for exactly one request, the one that was meant, wherever it is cut. */
  lemma PrintedFits(q: Printed)
    requires GoodRequest(q)
    ensures Fits(Print(q)) && RequestOf(Feed(FRESH_PARSER, Print(q)).1) == Intended(q)
  {
    hide Feed, Print, HeadEnd, RequestOf, Intended;
    PrintedHeadEnd(q);
    if q.Plain? {
      PrintedPlain(q);
    } else {
      PrintedSized(q);
    }
    hide CheckLine, CommonFields;
  }

  function PrintAll(qs: seq<Printed>): seq<string> {
    if qs == [] then [] else [Print(qs[0])] + PrintAll(qs[1..])
  }

  function IntendedAll(qs: seq<Printed>): seq<Request> {
    if qs == [] then [] else [Intended(qs[0])] + IntendedAll(qs[1..])
  }

  lemma {:induction false} PrintedAllFit(qs: seq<Printed>)
    requires forall i :: 0 <= i < |qs| ==> GoodRequest(qs[i])
    ensures AllFit(PrintAll(qs)) && Requests(PrintAll(qs)) == IntendedAll(qs)
  {
    hide GoodRequest, Fits, Feed, Print, Intended, RequestOf;
    if qs != [] {
      PrintedFits(qs[0]);
      PrintedAllFit(qs[1..]);
      assert PrintAll(qs)[1..] == PrintAll(qs[1..]);
    }
  }

  /** Print, send in any pieces, parse: in order, the requests that were meant, as many as the calls count, and all of
      them if and only if there were enough calls behind the end of each. */
  lemma PrintedStream(qs: seq<Printed>, calls: seq<Call>)
    requires forall i :: 0 <= i < |qs| ==> GoodRequest(qs[i])
    requires AllFed(calls) <= Flatten(PrintAll(qs)) && Disciplined(calls)
    ensures |IntendedAll(qs)| == |PrintAll(qs)| == |qs|
    ensures Parsed(calls) <= IntendedAll(qs) && (Run(calls).0.phase.Error? <==> !Roomy(calls))
    ensures Roomy(calls) ==>
      && Parsed(calls) == IntendedAll(qs)[..Count(calls, PrintAll(qs))]
      && (Parsed(calls) == IntendedAll(qs) <==> EnoughCalls(calls, PrintAll(qs), |qs|))
    ensures Roomy(calls) && AllFed(calls) == Flatten(PrintAll(qs)) ==>
      (Parsed(calls) == IntendedAll(qs) <==> Unread(Run(calls).0) == "")
  {
    AsMany(qs);
    hide *;
    PrintedAllFit(qs);
    StreamParsed(calls, PrintAll(qs));
    RequestsPrefix(PrintAll(qs), Count(calls, PrintAll(qs)));
  }

  lemma {:induction false} AsMany(qs: seq<Printed>)
    ensures |IntendedAll(qs)| == |PrintAll(qs)| == |qs|
  {
    hide Intended, Print;
    if qs != [] {
      AsMany(qs[1..]);
    }
  }

  /** The start line for a method and a target. */
  function LineText(verb: string, uri: string): string {
    ThreeWords(verb, uri, "HTTP/1.1")
  }

  function ThreeWords(a: string, b: string, c: string): string {
    a + ([' '] + (b + ([' '] + c)))
  }

  /** Any accepted target, with a method that is implemented, prints to a start line that is read back. */
  lemma LineThenRead(verb: string, uri: string)
    requires (verb == "GET" || verb == "POST" || verb == "DELETE") && CheckUri(uri).Accepted?
    ensures '\r' !in LineText(verb, uri)
    ensures CheckLine(LineText(verb, uri)) == GoodLine(RequestLine(verb, CheckUri(uri).uri, "HTTP/1.1"))
  {
    TargetIsPlain(uri);
    hide CheckUri, Word;
    WordsOfLine(verb, uri, "HTTP/1.1");
    hide ThreeWords;
    CheckedWords(LineText(verb, uri), verb, uri, "HTTP/1.1");
  }

  lemma CheckedWords(line: string, verb: string, uri: string, version: string)
    requires Word(line, 0) == verb && Word(line, 1) == uri && Word(line, 2) == version
    requires (verb == "GET" || verb == "POST" || verb == "DELETE") && CheckUri(uri).Accepted? && version == "HTTP/1.1"
    ensures CheckLine(line) == GoodLine(RequestLine(verb, CheckUri(uri).uri, version))
  {
    hide CheckUri, Word;
  }

  lemma TargetIsPlain(uri: string)
    requires CheckUri(uri).Accepted?
    ensures ' ' !in uri && '\r' !in uri
  {
    AcceptedUri(uri);
    hide CheckUri;
    assert forall i :: 0 <= i < |uri| ==> !BadByte(uri[i]);
    assert BadByte(' ') && BadByte('\r');
  }

  lemma WordsOfLine(a: string, b: string, c: string)
    requires ' ' !in a && ' ' !in b && ' ' !in c && '\r' !in a && '\r' !in b && '\r' !in c
    ensures var line := ThreeWords(a, b, c);
      '\r' !in line && Word(line, 0) == a && Word(line, 1) == b && Word(line, 2) == c
  {
    SplitThree(a, b, c);
    hide Split;
  }

  lemma SplitThree(a: string, b: string, c: string)
    requires ' ' !in a && ' ' !in b && ' ' !in c
    ensures Split(ThreeWords(a, b, c), ' ') == [a, b, c]
  {
    hide FindChar, Split;
    SplitFirst(a, ' ', b + ([' '] + c));
    SplitFirst(b, ' ', c);
    LastWord(c);
    assert [a] + ([b] + [c]) == [a, b, c];
  }

  lemma LastWord(c: string)
    requires ' ' !in c
    ensures Split(c, ' ') == [c]
  {
  }

  /** A host name without port, in lower case. */
  predicate PlainHost(host: string) {
    && host != "" && '\r' !in host && '\n' !in host && ':' !in host
    && forall i :: 0 <= i < |host| ==> !IsBlank(host[i]) && !('A' <= host[i] <= 'Z')
  }

  /** A host name without port makes a field list the checks accept. */
  lemma HostOnly(host: string)
    requires PlainHost(host)
    ensures CommonFields([Sent("Host", host)])
  {
    var f := Sent("Host", host);
    HostName();
    PlainValue(host);
    hide Lower, Trim;
    assert Meaning([f], map[], KEPT) == map["host" := host];
    HostAccepted(host);
  }

  /** Every accepted target on every such host makes a good request, with GET and with POST, as far as its size
      allows. */
  lemma SimpleRequest(uri: string, host: string, q: Printed)
    requires CheckUri(uri).Accepted?
    requires PlainHost(host)
    requires q.fields == [Sent("Host", host)] && q.line == LineText(if q.WithBody? then "POST" else "GET", uri)
    ensures GoodRequest(q) <==> |RequestHead(q.line, AllFields(q))| <= MAX_HEADER + 1 && |Print(q)| <= MAX_BUFFER
  {
    hide CheckLine, CheckUri, LineText, CommonFields, Print, RequestHead, AllFields;
    LineThenRead(if q.WithBody? then "POST" else "GET", uri);
    HostOnly(host);
  }

  lemma OneFieldLength(line: string, f: Sent)
    ensures |RequestHead(line, [f])| == |line| + |f.name| + |f.before| + |f.value| + |f.behind| + 7
  {
    assert PrintBlock([f]) == PrintField(f);
  }

  /** There are such requests: the root, on any such host that is not too long. */
  lemma RootRequest(host: string)
    requires PlainHost(host) && |host| <= MAX_HEADER - 100
    ensures GoodRequest(Plain(LineText("GET", "/"), [Sent("Host", host)]))
  {
    var q := Plain(LineText("GET", "/"), [Sent("Host", host)]);
    RootIsAccepted();
    OneFieldLength(q.line, q.fields[0]);
    assert |q.line| == 14 && Print(q) == RequestHead(q.line, q.fields) + "";
    hide CheckUri, LineText, RequestHead, GoodRequest, PlainHost;
    SimpleRequest("/", host, q);
  }

  lemma HostName()
    ensures GoodName("Host") && Lower("Host") == "host"
  {
    LowerIs("Host", "host");
  }

  lemma HostAccepted(host: string)
    requires host != "" && ':' !in host
    ensures Acceptable(map["host" := host])
  {
    var f := FRESH_FIELDS.(headers := map["host" := host]);
    assert FindChar(host, ':').None?;
    assert CheckHost(f) == WithHost(f, "", "");
  }

  const LOWER_CODING := Sent("transfer-encoding", "chunked")

  lemma LowerCodingSays()
    ensures SaysCoding(LOWER_CODING)
  {
    hide Lower, GoodName;
    PlainValue("chunked");
    PlainValue("transfer-encoding");
    LowerIs("transfer-encoding", "transfer-encoding");
    LowerNameGood();
  }

  lemma LowerNameGood()
    ensures GoodName("transfer-encoding")
  {
  }

  /** All characters of a printed head are those of its parts. */
  lemma TwoFieldHead(line: string, a: Sent, b: Sent, c: char)
    requires c !in line && c !in PrintField(a) && c !in PrintField(b) && c != '\r' && c != '\n'
    ensures c !in RequestHead(line, [a, b])
  {
    assert [a, b][1..] == [b];
    assert PrintBlock([b]) == PrintField(b);
    assert PrintBlock([a, b]) == PrintField(a) + (CRLF + PrintField(b));
  }

  lemma FieldWithout(f: Sent, c: char)
    requires c !in f.name && c !in f.before && c !in f.value && c !in f.behind && c != ':'
    ensures c !in PrintField(f)
  {
  }

  lemma NamesWithout()
    ensures 'E' !in "Host" && 'E' !in LOWER_CODING.name && 'E' !in LOWER_CODING.value && 'E' !in "POST"
        && 'E' !in "HTTP/1.1"
  {
  }

  function LowerCaseRequest(uri: string, host: string): string {
    RequestHead(LineText("POST", uri), ChunkedFields([Sent("Host", host)], LOWER_CODING))
  }

  lemma LowerCaseShape(uri: string, host: string)
    requires 'E' !in uri && PlainHost(host)
    ensures 'E' !in LowerCaseRequest(uri, host)
  {
    var line, f := LineText("POST", uri), Sent("Host", host);
    NamesWithout();
    assert 'E' !in line;
    FieldWithout(f, 'E');
    FieldWithout(LOWER_CODING, 'E');
    hide LineText, RequestHead, PrintField;
    TwoFieldHead(line, f, LOWER_CODING, 'E');
    assert [f] + [LOWER_CODING] == [f, LOWER_CODING];
  }

  /** The chunked request of a client that writes the field in lower case: the parser takes it, and its body is the
      chunks as they were framed, not what they carry. */
  lemma LowerCaseHead(uri: string, host: string, chunks: seq<Chunk>, zero: string)
    requires CheckUri(uri).Accepted? && 'E' !in uri && PlainHost(host) && GoodChunks(chunks) && GoodEnd(zero)
    requires |LowerCaseRequest(uri, host)| + |Wire(chunks, zero)| <= MAX_BUFFER
    ensures var (v, q) := AtOnce(LowerCaseRequest(uri, host) + Wire(chunks, zero));
      v.Ok? && q.body == Wire(chunks, zero) != Payload(chunks)
  {
    LineThenRead("POST", uri);
    HostOnly(host);
    LowerCodingSays();
    LowerCaseShape(uri, host);
    NoCapital(LowerCaseRequest(uri, host));
    hide CommonFields, SaysChunked, SaysCoding, Wire, Payload, RequestHead, AtOnce, CheckLine, LineText, CheckUri,
        PlainHost, GoodChunks, ChunkedFields;
    PrintedSpelling(LineText("POST", uri), [Sent("Host", host)], LOWER_CODING, chunks, zero);
  }

  /** The n-th of some words, or nothing. */
  function Nth(words: seq<string>, n: nat): string {
    if n < |words| then words[n] else ""
  }

  /** The methods with an answer of their own. */
  lemma MethodKinds(verb: string)
    ensures NotImplemented(verb) <==> verb in {"PUT", "PATCH", "OPTIONS", "TRACE", "CONNECT", "HEAD"}
    ensures NotImplemented(verb) ==> verb != "" && verb != "GET" && verb != "POST" && verb != "DELETE"
  {
  }

  /** The code for a line that is refused: 501 for the methods that are not implemented, 414 for a long target. */
  function LineCode(verb: string, uri: string): int {
    if NotImplemented(verb) then 501
    else if (verb == "GET" || verb == "POST" || verb == "DELETE") && |uri| > 8000 && uri[0] == '/' then 414
    else 400
  }

  /** Any line, as the words between its spaces: exactly which lines are accepted, what they become, and the code of the
      others. Words behind the third do not matter. */
  lemma LineJudged(words: seq<string>)
    requires words != [] && forall i :: 0 <= i < |words| ==> ' ' !in words[i]
    ensures var c := CheckLine(Join(words, ' ')); var verb, uri := Nth(words, 0), CheckUri(Nth(words, 1));
      && (c.GoodLine? <==> (verb == "GET" || verb == "POST" || verb == "DELETE") && uri.Accepted?
                           && Nth(words, 2) == "HTTP/1.1")
      && (c.GoodLine? ==> c.line == RequestLine(verb, uri.uri, "HTTP/1.1"))
      && (c.BadLine? ==> c.code == LineCode(verb, Nth(words, 1)))
  {
    hide Word, Nth, Join, CheckUri, NotImplemented;
    WordsJoined(words);
    WordsJudged(Join(words, ' '), Nth(words, 0), Nth(words, 1), Nth(words, 2));
  }

  lemma WordsJoined(words: seq<string>)
    requires words != [] && forall i :: 0 <= i < |words| ==> ' ' !in words[i]
    ensures var line := Join(words, ' ');
      Word(line, 0) == Nth(words, 0) && Word(line, 1) == Nth(words, 1) && Word(line, 2) == Nth(words, 2)
  {
    hide Join, Split;
    JoinThenSplit(words, ' ');
  }

  lemma WordsJudged(line: string, verb: string, uri: string, version: string)
    requires Word(line, 0) == verb && Word(line, 1) == uri && Word(line, 2) == version
    ensures var c := CheckLine(line);
      && (c.GoodLine? <==> (verb == "GET" || verb == "POST" || verb == "DELETE") && CheckUri(uri).Accepted?
                           && version == "HTTP/1.1")
      && (c.GoodLine? ==> c.line == RequestLine(verb, CheckUri(uri).uri, "HTTP/1.1"))
      && (c.BadLine? ==> c.code == LineCode(verb, uri))
  {
    MethodKinds(verb);
    RejectedUri(uri);
    AcceptedUri(uri);
    hide Word, CheckUri, NotImplemented, HasDots, UrlDecode, PathPart, Suffix, Normalize, NormalForm;
  }
}

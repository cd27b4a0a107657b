/** Printed requests and the rules for their header map: in any pieces, which of them are accepted, what is then kept
    open, and with which code the others are refused. */
module PrintedChecks {
  import opened Text
  import opened Headers
  import opened Checks
  import opened HeaderRules
  import opened ContentTypes
  import opened ChunkDecoder
  import opened ChunkedMessage
  import opened Parser
  import opened SplitIndependence
  import opened Framing
  import opened PrintedRequests
  import Stream
  import PrintedStreams

  /** A start line that is accepted and well-formed fields. */
  predicate GoodHead(line: string, fields: seq<Sent>) {
    && '\r' !in line && CheckLine(line).GoodLine? && fields != [] && GoodFields(fields)
    && |RequestHead(line, fields)| <= MAX_BUFFER
  }

  function Means(fields: seq<Sent>): Map {
    Meaning(fields, map[], KEPT)
  }

  const RULED := {"host", "connection", "transfer-encoding", "content-length", "content-type", "location"}

  /** The fields that the rules look at are all kept: the map holds each that was printed, with its last value. */
  lemma RuledFields(fields: seq<Sent>, key: string)
    requires key in RULED
    ensures var last := LastField(fields, key);
      && (key in Means(fields) <==> last.Some?)
      && (last.Some? ==> Means(fields)[key] == Lower(Trim(fields[last.value].value)))
  {
    RuledKept();
    LastValueWins(fields, map[], KEPT, key);
    hide RULED, KEPT, Meaning, LastField, Lower, Trim;
  }

  lemma RuledKept()
    ensures RULED <= KEPT
  {
  }

  lemma PrintedAtHead(line: string, fields: seq<Sent>)
    requires GoodHead(line, fields)
    ensures var head := RequestHead(line, fields);
      && AtHead(head) && LineOf(head) == CheckLine(line).line
      && HeadCheck(head) == CheckBlock(FRESH_FIELDS, PrintBlock(fields))
      && ReadBlock(PrintBlock(fields), KEPT) == Some(Means(fields))
  {
    hide CheckLine, CheckBlock, KEPT, At, Find, RequestHead, PrintBlock, Meaning, GoodField;
    PrintedShape(line, fields);
    Headers.PrintThenRead(fields, map[], KEPT);
  }

  /** No body is read behind the head. */
  predicate NoBody(verb: string, f: Fields) {
    verb != "POST" || (!f.transferEncodingExists && !f.contentLengthExists)
  }

  /** An accepted head alone is a complete request. */
  lemma HeadAlone(head: string)
    requires AtHead(head) && HeadCheck(head).ok && NoBody(LineOf(head).verb, HeadCheck(head).fields)
    ensures Feed(FRESH_PARSER, head) ==
      (Ok, FRESH_PARSER.(phase := Complete, startLine := Some(LineOf(head)), fields := HeadCheck(head).fields,
           buffer := head, pos := |head|))
  {
    hide CheckLine, CheckBlock, At, Find, Turn, Drive;
    var n, f := Find(head, CRLF, 0).value, HeadCheck(head).fields;
    assert Appended(FRESH_PARSER, head) == FRESH_PARSER.(buffer := head);
    Stream.TwoTurns(head, n, LineOf(head));
    var p1 := FRESH_PARSER.(buffer := head, pos := n + 2, startLine := Some(LineOf(head)), phase := HeaderBlock);
    Stream.HeaderTurnIs(p1, |head| - 4);
    var next := if LineOf(head).verb == "POST" || f.expected > 0 then Body else Complete;
    var p2 := p1.(pos := |head|, fields := f, phase := next);
    DriveStep(p1, p2);
    NothingToRead(p2);
  }

  lemma NothingToRead(p: Parser)
    requires Valid(p) && (p.phase.Body? || p.phase.Complete?) && NoBody(p.startLine.value.verb, p.fields)
    ensures Drive(p) == (Ok, p.(phase := Complete))
  {
    if p.phase.Body? {
      TurnValid(p);
    }
  }

  /** The same in any pieces whose cuts fit. */
  lemma HeadInPieces(head: string, pieces: seq<string>)
    requires AtHead(head) && pieces != [] && Flatten(pieces) == head && pieces[|pieces| - 1] != ""
    requires CutsFit(head, pieces) && |head| <= MAX_BUFFER
    ensures Deliver(pieces) == AtOnce(head)
  {
    hide AtHead, Feed, CutFits;
    forall m | 0 < m < |pieces| ensures |Flatten(pieces[..m])| < |head| {
      FlattenPrefix(pieces, m);
    }
    assert pieces[..|pieces|] == pieces && head + "" == head;
    FrontJoins(head, "", pieces, |pieces|);
  }

  /** Printed fields that break a rule, in any pieces, whatever follows: the request fails with the code of the rule, or
      with 431. */
  lemma PrintedRefused(line: string, fields: seq<Sent>, w: string, pieces: seq<string>)
    requires GoodHead(line, fields) && !Fine(Means(fields))
    requires pieces != [] && Flatten(pieces) == RequestHead(line, fields) + w && |Flatten(pieces)| <= MAX_BUFFER
    ensures FailedWith(Deliver(pieces), if CutsFit(RequestHead(line, fields), pieces) then Code(Means(fields)) else 431)
  {
    hide *;
    PrintedAtHead(line, fields);
    BlockJudged(PrintBlock(fields));
    BlockFails(RequestHead(line, fields), w, pieces);
  }

  /** Printed fields that keep the rules, and no body: the request is complete with what its fields mean to the
      parser, and the connection is to be kept unless they say `close`. */
  lemma PrintedAccepted(line: string, fields: seq<Sent>, pieces: seq<string>)
    requires GoodHead(line, fields) && Fine(Means(fields))
    requires CheckLine(line).line.verb == "POST" ==>
      "content-length" !in Means(fields) && "transfer-encoding" !in Means(fields)
    requires pieces != [] && Flatten(pieces) == RequestHead(line, fields) && pieces[|pieces| - 1] != ""
    ensures var (v, q) := Deliver(pieces);
      if CutsFit(RequestHead(line, fields), pieces) then
        v.Ok? && q.startLine == Some(CheckLine(line).line) && q.body == "" && q.pos == |q.buffer|
        && (q.fields.keepAlive <==> !SaysClose(Means(fields)))
      else FailedWith(Deliver(pieces), 431)
  {
    hide *;
    var head := RequestHead(line, fields);
    PrintedAlone(line, fields);
    GoodHeadSize(line, fields);
    if CutsFit(head, pieces) {
      HeadInPieces(head, pieces);
    } else {
      assert head + "" == head;
      BadCutRefused(head, "", pieces);
    }
  }

  lemma GoodHeadSize(line: string, fields: seq<Sent>)
    requires GoodHead(line, fields)
    ensures CheckLine(line).GoodLine? && |RequestHead(line, fields)| <= MAX_BUFFER && AtHead(RequestHead(line, fields))
  {
    PrintedAtHead(line, fields);
    hide AtHead, HeadCheck, LineOf, CheckLine, RequestHead, CheckBlock, GoodFields, ReadBlock;
  }

  lemma PrintedAlone(line: string, fields: seq<Sent>)
    requires GoodHead(line, fields) && Fine(Means(fields))
    requires CheckLine(line).line.verb == "POST" ==>
      "content-length" !in Means(fields) && "transfer-encoding" !in Means(fields)
    ensures var (v, q) := AtOnce(RequestHead(line, fields));
      && v.Ok? && q.startLine == Some(CheckLine(line).line) && q.body == "" && q.pos == |q.buffer|
      && (q.fields.keepAlive <==> !SaysClose(Means(fields)))
  {
    var head := RequestHead(line, fields);
    PrintedAtHead(line, fields);
    BlockJudged(PrintBlock(fields));
    hide Fine, Means, RequestHead, KEPT, CheckBlock, CheckLine, Feed, AtHead, HeadCheck, GoodFields, SaysClose, LineOf,
        PrintBlock, ReadBlock;
    HeadAlone(head);
  }

  /** What a header map breaks but for the two framings. */
  predicate OtherwiseFine(m: Map) {
    && HostFine(m) && ConnectionFine(m) && CodingFine(m) && LengthFine(m) && LocationFine(m) && TypeFine(m)
  }

  lemma FineMeans(m: Map)
    ensures Fine(m) <==> OtherwiseFine(m) && OneFraming(m)
    ensures OtherwiseFine(m) && !OneFraming(m) ==> Code(m) == 400
  {
    hide HostFine, ConnectionFine, CodingFine, LengthFine, LocationFine, CharsetFine, BoundaryFine, MediaTypeFine;
  }

  /** Section 3.3.3 of RFC 7230: a request whose fields hold both framings, in whatever order, is refused with 400, or
      with the code of a rule that it breaks as well. */
  lemma BothFramingsRefused(line: string, fields: seq<Sent>, w: string, pieces: seq<string>)
    requires GoodHead(line, fields) && "content-length" in Means(fields) && "transfer-encoding" in Means(fields)
    requires pieces != [] && Flatten(pieces) == RequestHead(line, fields) + w && |Flatten(pieces)| <= MAX_BUFFER
    requires CutsFit(RequestHead(line, fields), pieces)
    ensures FailedWith(Deliver(pieces), if OtherwiseFine(Means(fields)) then 400 else Code(Means(fields)))
  {
    FineMeans(Means(fields));
    hide Means, Fine, Code, OtherwiseFine, GoodHead, RequestHead, CutsFit, FailedWith, Deliver;
    PrintedRefused(line, fields, w, pieces);
  }

  /** Fields without framing that the checks accept. */
  lemma CommonIsFine(fields: seq<Sent>)
    requires CommonFields(fields)
    ensures fields != [] && GoodFields(fields) && Fine(Means(fields)) && OtherwiseFine(Means(fields))
    ensures "content-length" !in Means(fields) && "transfer-encoding" !in Means(fields)
  {
    hide CheckAll, SetLength, KEPT, Fine, OtherwiseFine, SaysClose, GoodField, Code;
    PrintedStreams.PlainChecks(Means(fields));
    Judged(Means(fields));
    FineMeans(Means(fields));
  }

  /** A length and chunked coding behind any such fields. */
  function BothFields(fields: seq<Sent>, n: nat, coding: Sent): seq<Sent> {
    ChunkedFields(SizedFields(fields, n), coding)
  }

  lemma BothMean(fields: seq<Sent>, n: nat, coding: Sent)
    requires CommonFields(fields) && n <= INT_MAX && SaysCoding(coding)
    ensures BothFields(fields, n, coding) != [] && GoodFields(BothFields(fields, n, coding))
    ensures Means(BothFields(fields, n, coding)) ==
      Means(fields)["content-length" := PrintDecimal(n)]["transfer-encoding" := "chunked"]
  {
    var f, m := Sent("Content-Length", PrintDecimal(n)), Means(fields);
    LengthField(n, m);
    CodingField(coding, m["content-length" := PrintDecimal(n)]);
    OneMoreField(fields, f);
    OneMoreField(SizedFields(fields, n), coding);
    hide Note, KEPT, Meaning, PrintDecimal, Acceptable, GoodField, GoodFields;
    MeaningLast(fields, f, map[], KEPT);
    MeaningLast(SizedFields(fields, n), coding, map[], KEPT);
  }

  lemma BothOtherwiseFine(m: Map, length: string)
    requires OtherwiseFine(m) && length != "" && AllDecimal(length) && DecimalValue(length) <= INT_MAX
    ensures OtherwiseFine(m["content-length" := length]["transfer-encoding" := "chunked"])
  {
    hide AllDecimal, DecimalValue, MediaType, DirectiveParts, Directives, CONTENT_TYPES, HasPort;
  }

  /** So a POST that is fine but for its two framings is refused with 400. */
  lemma BothFramings(line: string, fields: seq<Sent>, n: nat, coding: Sent, w: string, pieces: seq<string>)
    requires '\r' !in line && CheckLine(line).GoodLine? && CommonFields(fields) && n <= INT_MAX && SaysCoding(coding)
    requires var head := RequestHead(line, BothFields(fields, n, coding));
      pieces != [] && Flatten(pieces) == head + w && |head + w| <= MAX_BUFFER && CutsFit(head, pieces)
    ensures FailedWith(Deliver(pieces), 400)
  {
    BothMean(fields, n, coding);
    CommonIsFine(fields);
    DecimalLength(n);
    hide CommonFields, Means, OtherwiseFine, PrintDecimal, AllDecimal, DecimalValue, Fine, Code, BothFields, SaysCoding,
        RequestHead, CutsFit, FailedWith, Deliver, CheckLine, GoodFields;
    BothOtherwiseFine(Means(fields), PrintDecimal(n));
    BothFramingsRefused(line, BothFields(fields, n, coding), w, pieces);
  }

  /** Fields, and a content type as a client prints it, in whatever letter case. */
  predicate TypeSent(f: Sent, mediaType: string, blanks: string, ps: seq<Parameter>) {
    && GoodField(f) && Lower(f.name) == "content-type" && Lower(Trim(f.value)) == PrintType(mediaType, blanks, ps)
    && mediaType != "" && PlainText(mediaType) && OptionalBlanks(blanks) && GoodParameters(ps)
  }

  lemma TypeMeans(fields: seq<Sent>, f: Sent, mediaType: string, blanks: string, ps: seq<Parameter>)
    requires CommonFields(fields) && TypeSent(f, mediaType, blanks, ps)
    ensures fields + [f] != [] && GoodFields(fields + [f])
    ensures Means(fields + [f]) == Means(fields)["content-type" := PrintType(mediaType, blanks, ps)]
  {
    assert "content-type" in KEPT;
    hide KEPT, Meaning, Acceptable, GoodField, PrintType, GoodParameters, PlainText, Lower, Trim;
    MeaningLast(fields, f, map[], KEPT);
  }

  lemma TypeLaid(m: Map, t: string)
    requires OtherwiseFine(m)
    ensures var g := m["content-type" := t];
      && HostFine(g) && ConnectionFine(g) && CodingFine(g) && LengthFine(g) && LocationFine(g)
      && (SaysClose(g) <==> SaysClose(m))
  {
    hide AllDecimal, DecimalValue, TypeFine, HasPort;
  }

  lemma FineButType(m: Map)
    requires HostFine(m) && ConnectionFine(m) && CodingFine(m) && LengthFine(m) && LocationFine(m) && OneFraming(m)
    ensures Fine(m) <==> TypeFine(m)
    ensures !Fine(m) ==> Code(m) == TypeCode(m)
  {
    hide HostFine, ConnectionFine, CodingFine, LengthFine, LocationFine, CharsetFine, BoundaryFine, MediaTypeFine;
  }

  /** A content type beside fields that are accepted: the map is fine exactly when TypeAnswer has nothing against the
      media type and its parameters. */
  lemma TypeDecides(fields: seq<Sent>, f: Sent, mediaType: string, blanks: string, ps: seq<Parameter>)
    requires CommonFields(fields) && TypeSent(f, mediaType, blanks, ps)
    ensures var m, answer := Means(fields + [f]), TypeAnswer(mediaType, Given(ps, map[]));
      && fields + [f] != [] && GoodFields(fields + [f]) && (Fine(m) <==> answer == 0)
          && (!Fine(m) ==> Code(m) == answer)
      && "content-length" !in m && "transfer-encoding" !in m && (SaysClose(m) <==> SaysClose(Means(fields)))
  {
    TypeMeans(fields, f, mediaType, blanks, ps);
    CommonIsFine(fields);
    hide CommonFields, Means, OtherwiseFine, TypeFine, TypeCode, Given, TypeAnswer, HostFine, ConnectionFine,
        CodingFine,
        LengthFine, LocationFine, SaysClose, PrintType, Fine, Code, GoodFields, GoodField, Lower, Trim;
    var m := Means(fields + [f]);
    TypeLaid(Means(fields), PrintType(mediaType, blanks, ps));
    TypeJudged(m, mediaType, blanks, ps);
    FineButType(m);
  }

  /** The same of the request: in any pieces whose cuts fit it is complete, or refused with the code. */
  lemma PrintedType(line: string, fields: seq<Sent>, f: Sent, mediaType: string, blanks: string, ps: seq<Parameter>,
                    pieces: seq<string>)
    requires '\r' !in line && CheckLine(line).GoodLine? && CommonFields(fields) && TypeSent(f, mediaType, blanks, ps)
    requires var head := RequestHead(line, fields + [f]);
      && |head| <= MAX_BUFFER && pieces != [] && Flatten(pieces) == head && pieces[|pieces| - 1] != ""
      && CutsFit(head, pieces)
    ensures var answer := TypeAnswer(mediaType, Given(ps, map[]));
      if answer == 0 then Deliver(pieces).0.Ok? else FailedWith(Deliver(pieces), answer)
  {
    TypeDecides(fields, f, mediaType, blanks, ps);
    hide CommonFields, Means, TypeAnswer, Fine, Code, SaysClose, RequestHead, CutsFit, FailedWith, Deliver, CheckLine,
        GoodFields, TypeSent;
    var head := RequestHead(line, fields + [f]);
    assert head + "" == head;
    if TypeAnswer(mediaType, Given(ps, map[])) == 0 {
      PrintedAccepted(line, fields + [f], pieces);
    } else {
      PrintedRefused(line, fields + [f], "", pieces);
    }
  }

  /** A multipart upload with its boundary, without it, and with an empty one. */
  lemma MultipartAnswers(boundary: string)
    ensures TypeAnswer("multipart/form-data", Given([Parameter("boundary", boundary)], map[])) ==
      if boundary == "" then 400 else 0
    ensures TypeAnswer("multipart/form-data", Given([], map[])) == 400
  {
    MultipartKnown();
    OneGiven(Parameter("boundary", boundary));
    assert "charset" != "boundary";
    hide CONTENT_TYPES, Given;
    assert Given([], map[]) == map[];
  }

  lemma MultipartKnown()
    ensures "multipart/form-data" in CONTENT_TYPES && "multipart/" <= "multipart/form-data"
  {
  }

  lemma OneGiven(p: Parameter)
    ensures Given([p], map[]) == map[p.key := p.value] && Given([], map[]) == map[]
  {
    assert [p][1..] == [];
  }

  /** A charset. */
  lemma CharsetAnswers(mediaType: string, charset: string)
    requires mediaType in CONTENT_TYPES && !("multipart/" <= mediaType)
    ensures TypeAnswer(mediaType, Given([Parameter("charset", charset)], map[])) ==
      if charset == "utf-8" || charset == "iso-8859-1" then 0 else 415
  {
    OneGiven(Parameter("charset", charset));
    hide CONTENT_TYPES, Given;
  }
}

/** Requests as a client prints them: every list of fields the checks accept, with either framing added. */
module PrintedRequests {
  import opened Text
  import opened Headers
  import opened Checks
  import opened ChunkDecoder
  import opened ChunkedMessage
  import opened Parser
  import opened Framing

  /** One more entry in the header map, and the framing flags. */
  function With(f: Fields, key: string, value: string, sized: bool, chunked: bool): Fields {
    f.(headers := f.headers[key := value], contentLengthExists := sized, transferEncodingExists := chunked)
  }

  /** The two keys that frame a body. */
  predicate FramingKey(key: string) {
    key == "content-length" || key == "transfer-encoding"
  }

  lemma WithHostField(f: Fields, key: string, value: string, s: bool, c: bool)
    requires FramingKey(key) && CheckHost(f).ok
    ensures CheckHost(With(f, key, value, s, c)) == Check(true, With(CheckHost(f).fields, key, value, s, c))
    ensures key in CheckHost(f).fields.headers <==> key in f.headers
  {
    var h, host := f.headers, CheckHost(f).fields.headers;
    hide AllDecimal, DecimalValue, FindChar;
    TwoMore(h, key, value, host["host_name"], host["port"]);
  }

  lemma TwoMore(h: Map, key: string, value: string, name: string, port: string)
    requires FramingKey(key)
    ensures h[key := value]["host_name" := name]["port" := port] == h["host_name" := name]["port" := port][key := value]
  {
  }

  lemma WithConnection(f: Fields, key: string, value: string, s: bool, c: bool)
    requires FramingKey(key) && CheckConnection(f).ok
    ensures CheckConnection(With(f, key, value, s, c)) == Check(true, With(CheckConnection(f).fields, key, value, s, c))
    ensures CheckConnection(f).fields.headers == f.headers
  {
  }

  lemma WithLocation(f: Fields, key: string, value: string, s: bool, c: bool)
    requires FramingKey(key) && CheckLocation(f).ok
    ensures CheckLocation(With(f, key, value, s, c)) == Check(true, With(f, key, value, s, c))
    ensures CheckLocation(f).fields == f
  {
  }

  lemma {:induction false} WithDirectives(parts: seq<string>, m: Map, key: string, value: string)
    requires key !in Directives(parts, m)
    ensures Directives(parts, m[key := value]) == Directives(parts, m)[key := value]
    decreases parts
  {
    if parts != [] {
      var d := Directive(parts[0]);
      if d.Some? {
        var m' := m[d.value.0 := d.value.1];
        DirectivesKeep(parts[1..], m');
        assert m[key := value][d.value.0 := d.value.1] == m'[key := value];
        WithDirectives(parts[1..], m', key, value);
      } else {
        WithDirectives(parts[1..], m, key, value);
      }
    }
  }

  lemma WithMediaType(f: Fields, mediaType: string, directives: Map, key: string, value: string, s: bool, c: bool)
    requires FramingKey(key) && CheckMediaType(f, mediaType, directives).ok
    ensures CheckMediaType(With(f, key, value, s, c), mediaType, directives)
            == Check(true, With(CheckMediaType(f, mediaType, directives).fields, key, value, s, c))
  {
    hide BadCharset, BadBoundary;
    assert f.headers[key := value]["content-type-value" := mediaType]
        == f.headers["content-type-value" := mediaType][key := value];
  }

  lemma WithContentType(f: Fields, key: string, value: string, s: bool, c: bool)
    requires FramingKey(key) && CheckContentType(f).ok && key !in CheckContentType(f).fields.headers
    ensures CheckContentType(With(f, key, value, s, c))
        == Check(true, With(CheckContentType(f).fields, key, value, s, c))
  {
    if "content-type" in f.headers {
      hide CheckMediaType, DirectiveParts, MediaType, Directives;
      var contentType := f.headers["content-type"];
      var parts, mediaType := DirectiveParts(contentType), MediaType(contentType);
      var g := f.(headers := Directives(parts, f.headers));
      MediaTypeKeeps(g, mediaType, Directives(parts, map[]));
      WithDirectives(parts, f.headers, key, value);
      WithMediaType(g, mediaType, Directives(parts, map[]), key, value, s, c);
    }
  }

  /** Header maps without framing that the checks accept, no directive of the content type passing for a framing. */
  predicate Acceptable(m: Map) {
    var c := CheckAll(FRESH_FIELDS.(headers := m));
    && "content-length" !in m && "transfer-encoding" !in m
    && c.ok && "content-length" !in c.fields.headers && "transfer-encoding" !in c.fields.headers
  }

  /** The chain of checks, one by one. */
  lemma Accepted3(m: Map)
    requires Acceptable(m)
    ensures var f := FRESH_FIELDS.(headers := m);
      var h := CheckHost(f); var n := CheckConnection(h.fields); var t := CheckTransferEncoding(n.fields);
      && h.ok && n.ok && t == Check(true, n.fields.(transferEncodingExists := false))
      && CheckContentLength(t.fields) == Check(true, t.fields)
      && CheckLocation(t.fields) == Check(true, t.fields) && CheckContentType(t.fields) == CheckAll(f)
  {
    hide CheckContentType;
    var f := FRESH_FIELDS.(headers := m);
    assert CheckHost(f).ok;
    WithHostField(f, "content-length", "", false, false);
    WithHostField(f, "transfer-encoding", "", false, false);
    WithConnection(CheckHost(f).fields, "content-length", "", false, false);
  }

  lemma SizedChecks(m: Map, n: nat)
    requires Acceptable(m) && n <= INT_MAX
    ensures var c := SetLength(CheckAll(FRESH_FIELDS.(headers := m["content-length" := PrintDecimal(n)])));
      c.ok && c.fields.contentLengthExists && !c.fields.transferEncodingExists && c.fields.expected == n
  {
    var f, key, value := FRESH_FIELDS.(headers := m), "content-length", PrintDecimal(n);
    DecimalLength(n);
    Accepted3(m);
    var h := CheckHost(f).fields;
    var g := CheckConnection(h).fields;
    var t := g.(transferEncodingExists := false);
    hide CheckHost, CheckConnection, CheckLocation, CheckContentType, PrintDecimal, ReadSize;
    assert FRESH_FIELDS.(headers := m[key := value]) == With(f, key, value, false, false);
    WithHostField(f, key, value, false, false);
    WithHostField(f, "transfer-encoding", "", false, false);
    WithConnection(h, key, value, false, false);
    assert CheckTransferEncoding(With(g, key, value, false, false)) == Check(true, With(t, key, value, false, false));
    assert CheckContentLength(With(t, key, value, false, false)) == Check(true, With(t, key, value, true, false));
    WithLocation(t, key, value, true, false);
    WithContentType(t, key, value, true, false);
  }

  lemma ChunkedChecks(m: Map)
    requires Acceptable(m)
    ensures var c := SetLength(CheckAll(FRESH_FIELDS.(headers := m["transfer-encoding" := "chunked"])));
      c.ok && !c.fields.contentLengthExists && c.fields.transferEncodingExists && c.fields.expected == 0
  {
    var f, key, value := FRESH_FIELDS.(headers := m), "transfer-encoding", "chunked";
    Accepted3(m);
    var h := CheckHost(f).fields;
    var g := CheckConnection(h).fields;
    var t := g.(transferEncodingExists := false);
    hide CheckHost, CheckConnection, CheckLocation, CheckContentType, ReadSize;
    assert FRESH_FIELDS.(headers := m[key := value]) == With(f, key, value, false, false);
    WithHostField(f, key, value, false, false);
    WithHostField(f, "content-length", "", false, false);
    WithConnection(h, key, value, false, false);
    assert CheckTransferEncoding(With(g, key, value, false, false)) == Check(true, With(t, key, value, false, true));
    assert CheckContentLength(With(t, key, value, false, true)) == Check(true, With(t, key, value, false, true));
    WithLocation(t, key, value, false, true);
    WithContentType(t, key, value, false, true);
  }

  /** A printed length passes the check and reads back. */
  lemma DecimalLength(n: nat)
    requires n <= INT_MAX
    ensures AllDecimal(PrintDecimal(n)) && DecimalValue(PrintDecimal(n)) == n && ReadSize(PrintDecimal(n)) == n
  {
    PrintThenReadDecimal(n);
    hide PrintDecimal;
    AllDigits(PrintDecimal(n), n);
  }

  lemma AllDigits(s: string, n: nat)
    requires s != "" && AllDecimal(s) && DecimalValue(s) == n && n <= INT_MAX
    ensures ReadSize(s) == n
  {
    DigitRunIsAll(s);
    assert s[..|s|] == s;
    assert IsDecimal(s[0]);
    hide DigitRun, DecimalValue;
    assert LeadingInteger(s) == n;
  }

  lemma {:induction false} SkipsSpaces(spaces: string, s: string)
    requires (forall i :: 0 <= i < |spaces| ==> IsSpace(spaces[i])) && (s == "" || !IsSpace(s[0]))
    ensures SkipSpace(spaces + s) == s
  {
    if spaces == "" {
      assert spaces + s == s;
    } else {
      assert (spaces + s)[1..] == spaces[1..] + s;
      SkipsSpaces(spaces[1..], s);
    }
  }

  lemma {:induction false} DigitsEnd(digits: string, rest: string)
    requires AllDecimal(digits) && (rest == "" || !IsDecimal(rest[0]))
    ensures DigitRun(digits + rest) == |digits| && (digits + rest)[..|digits|] == digits
  {
    if digits == "" {
      assert digits + rest == rest;
    } else {
      assert (digits + rest)[1..] == digits[1..] + rest;
      DigitsEnd(digits[1..], rest);
    }
  }

  /** What is read from any text that starts with a number: the number below 2^64, its negative modulo 2^64, and the
      largest one for what does not fit. */
  lemma ReadSizeMeans(spaces: string, sign: string, digits: string, rest: string)
    requires forall i :: 0 <= i < |spaces| ==> spaces[i] == ' ' || 9 <= spaces[i] as int <= 13
    requires sign == "" || sign == "+" || sign == "-"
    requires digits != "" && AllDecimal(digits) && (rest == "" || !IsDecimal(rest[0]))
    ensures var n := DecimalValue(digits);
      ReadSize(spaces + (sign + (digits + rest))) ==
        if n >= TWO_64 then TWO_64 - 1 else if sign == "-" && n > 0 then TWO_64 - n else n
  {
    hide *;
    AreSpaces(spaces);
    NumberStarts(sign, digits, rest);
    SkipsSpaces(spaces, sign + (digits + rest));
    LeadingIs(spaces + (sign + (digits + rest)), sign, digits, rest);
    SizeOf(spaces + (sign + (digits + rest)));
  }

  lemma AreSpaces(spaces: string)
    requires forall i :: 0 <= i < |spaces| ==> spaces[i] == ' ' || 9 <= spaces[i] as int <= 13
    ensures forall i :: 0 <= i < |spaces| ==> IsSpace(spaces[i])
  {
  }

  lemma NumberStarts(sign: string, digits: string, rest: string)
    requires (sign == "" || sign == "+" || sign == "-") && digits != "" && AllDecimal(digits)
    ensures sign + (digits + rest) != "" && !IsSpace((sign + (digits + rest))[0])
  {
    assert IsDecimal(digits[0]);
    assert (sign + (digits + rest))[0] == if sign == "" then digits[0] else sign[0];
  }

  /** Without a number at the start, nothing is read. */
  lemma NoNumber(s: string)
    requires s == "" || (s[0] !in {' ', '+', '-'} && !(9 <= s[0] as int <= 13) && !('0' <= s[0] <= '9'))
    ensures ReadSize(s) == 0
  {
    assert SkipSpace(s) == s;
  }

  lemma SizeOf(s: string)
    ensures var n := LeadingInteger(s);
      ReadSize(s) == if n <= -TWO_64 || TWO_64 <= n then TWO_64 - 1 else if n < 0 then TWO_64 + n else n
  {
    hide LeadingInteger;
  }

  lemma LeadingIs(s: string, sign: string, digits: string, rest: string)
    requires SkipSpace(s) == sign + (digits + rest) && digits != "" && AllDecimal(digits)
    requires (sign == "" || sign == "+" || sign == "-") && (rest == "" || !IsDecimal(rest[0]))
    ensures LeadingInteger(s) == if sign == "-" then 0 - DecimalValue(digits) else DecimalValue(digits)
  {
    var t := SkipSpace(s);
    DigitsEnd(digits, rest);
    assert t[0] == if sign == "" then digits[0] else sign[0];
    assert IsDecimal(digits[0]);
    hide DecimalValue, DigitRun, SkipSpace, AllDecimal;
    assert sign == "" ==> t == digits + rest;
    assert sign != "" ==> t[1..] == digits + rest;
  }

  lemma {:induction false} DigitRunIsAll(s: string)
    requires AllDecimal(s)
    ensures DigitRun(s) == |s|
  {
    if s != "" {
      DigitRunIsAll(s[1..]);
    }
  }

  /** A value that trimming and lower-casing leave alone. */
  lemma PlainValue(s: string)
    requires forall i :: 0 <= i < |s| ==> !IsBlank(s[i]) && !('A' <= s[i] <= 'Z')
    ensures Lower(Trim(s)) == s
  {
    assert TrimLeft(s) == s && TrimRight(s) == s;
    LowerIsSame(s);
  }

  lemma {:induction false} LowerIsSame(s: string)
    requires forall i :: 0 <= i < |s| ==> !('A' <= s[i] <= 'Z')
    ensures Lower(s) == s
  {
    if s != "" {
      LowerIsSame(s[1..]);
      assert s == [s[0]] + s[1..];
    }
  }

  /** The start line, the fields, the blank line. */
  function RequestHead(line: string, fields: seq<Sent>): string {
    line + (CRLF + (PrintBlock(fields) + CRLF2))
  }

  /** A start line for a POST that the checks accept. */
  predicate PostLine(line: string) {
    '\r' !in line && CheckLine(line).GoodLine? && CheckLine(line).line.verb == "POST"
  }

  /** Where the line ends of a printed head stand. */
  lemma PrintedShape(line: string, fields: seq<Sent>)
    requires '\r' !in line && fields != [] && GoodFields(fields)
    ensures var head := RequestHead(line, fields);
      && Find(head, CRLF, 0) == Some(|line|) && head[..|line|] == line
      && Find(head, CRLF2, |line| + 2) == Some(|head| - 4) && head[|line| + 2..|head| - 4] == PrintBlock(fields)
  {
    hide At, Find, PrintBlock, GoodFields;
    var block := PrintBlock(fields);
    FindLineEnd(line, block + CRLF2);
    PrintBlockEnds(fields, "");
    HeadParts(line, block);
    FindShift(line + CRLF, block + CRLF2, CRLF2, 0);
  }

  lemma HeadParts(line: string, block: string)
    ensures var head := line + (CRLF + (block + CRLF2));
      && head == (line + CRLF) + (block + CRLF2) && CRLF2 + "" == CRLF2
      && head[..|line|] == line && head[|line| + 2..|head| - 4] == block
  {
  }

  lemma FirstLineNotEmpty(line: string, fields: seq<Sent>)
    requires fields != [] && GoodFields(fields)
    ensures !At(RequestHead(line, fields), CRLF, |line| + 2)
  {
    var head, block := RequestHead(line, fields), PrintBlock(fields);
    AtCrlf(head, |line| + 2);
    hide At;
    PrintedHasNoNewline(fields[0]);
    NameHasNoColon(fields[0].name);
    assert block[0] == PrintField(fields[0])[0] == fields[0].name[0];
    assert head[|line| + 2] == block[0];
  }

  /** Fields whose printed block the parser accepts, and the parser that is left behind the head. */
  lemma PrintedHead(line: string, fields: seq<Sent>) returns (p: Parser)
    requires PostLine(line) && fields != [] && GoodFields(fields) && |RequestHead(line, fields)| <= MAX_BUFFER
    requires SetLength(CheckAll(FRESH_FIELDS.(headers := Meaning(fields, map[], KEPT)))).ok
    ensures AtBody(RequestHead(line, fields), p) && p.startLine == Some(CheckLine(line).line)
    ensures p.fields == SetLength(CheckAll(FRESH_FIELDS.(headers := Meaning(fields, map[], KEPT)))).fields
  {
    hide CheckLine, CheckAll, SetLength, KEPT, At, Find, RequestHead, PrintBlock, Meaning;
    var head, block := RequestHead(line, fields), PrintBlock(fields);
    PrintedShape(line, fields);
    Headers.PrintThenRead(fields, map[], KEPT);
    var c := CheckBlock(FRESH_FIELDS, block);
    assert c == SetLength(CheckAll(FRESH_FIELDS.(headers := Meaning(fields, map[], KEPT))));
    p := Parser(Body, Some(CheckLine(line).line), c.fields, head, |head|, "", 0, "", FRESH);
  }

  lemma {:induction false} MeaningLast(fields: seq<Sent>, f: Sent, m: Map, kept: set<string>)
    ensures Meaning(fields + [f], m, kept) == Note(f, Meaning(fields, m, kept), kept)
    decreases fields
  {
    if fields == [] {
      assert [f][1..] == [];
      assert [] + [f] == [f];
    } else {
      assert (fields + [f])[1..] == fields[1..] + [f];
      MeaningLast(fields[1..], f, Note(fields[0], m, kept), kept);
    }
  }

  lemma {:induction false} PrintLast(fields: seq<Sent>, f: Sent)
    requires fields != []
    ensures PrintBlock(fields + [f]) == PrintBlock(fields) + (CRLF + PrintField(f))
    decreases fields
  {
    assert (fields + [f])[1..] == fields[1..] + [f];
    if |fields| > 1 {
      PrintLast(fields[1..], f);
    }
  }

  function SizedFields(fields: seq<Sent>, n: nat): seq<Sent> {
    fields + [Sent("Content-Length", PrintDecimal(n))]
  }

  /** A field the parser takes for chunks, in whatever letter case and with whatever blanks around its value. */
  predicate SaysCoding(f: Sent) {
    GoodField(f) && Lower(f.name) == "transfer-encoding" && Lower(Trim(f.value)) == "chunked"
  }

  const CODING := Sent("Transfer-Encoding", "chunked")

  function ChunkedFields(fields: seq<Sent>, coding: Sent): seq<Sent> {
    fields + [coding]
  }

  /** Any well-formed fields, none of them a framing, that the checks accept. */
  predicate CommonFields(fields: seq<Sent>) {
    fields != [] && GoodFields(fields) && Acceptable(Meaning(fields, map[], KEPT))
  }

  lemma LengthName()
    ensures Lower("Content-Length") == "content-length"
  {
    hide Lower;
    LowerIs("Content-Length", "content-length");
  }

  lemma LengthNameGood()
    ensures GoodName("Content-Length")
  {
  }

  lemma CodingName()
    ensures Lower("Transfer-Encoding") == "transfer-encoding"
  {
    hide Lower;
    LowerIs("Transfer-Encoding", "transfer-encoding");
  }

  lemma CodingNameGood()
    ensures GoodName("Transfer-Encoding")
  {
  }

  lemma FramingKept()
    ensures "content-length" in KEPT && "transfer-encoding" in KEPT
  {
  }

  lemma PrintedIsPlain(n: nat)
    ensures var s := PrintDecimal(n);
      '\r' !in s && '\n' !in s && forall i :: 0 <= i < |s| ==> !IsBlank(s[i]) && !('A' <= s[i] <= 'Z')
  {
    var s := PrintDecimal(n);
    assert forall i :: 0 <= i < |s| ==> IsDecimal(s[i]);
  }

  lemma LengthField(n: nat, m: Map)
    ensures var f := Sent("Content-Length", PrintDecimal(n));
      GoodField(f) && Note(f, m, KEPT) == m["content-length" := PrintDecimal(n)]
  {
    var s := PrintDecimal(n);
    PrintedIsPlain(n);
    hide PrintDecimal, Lower, GoodName, KEPT, Trim;
    PlainValue(s);
    LengthName();
    LengthNameGood();
    FramingKept();
  }

  lemma CodingSays()
    ensures SaysCoding(CODING)
  {
    hide Lower, GoodName;
    PlainValue("chunked");
    CodingName();
    CodingNameGood();
  }

  lemma CodingField(coding: Sent, m: Map)
    requires SaysCoding(coding)
    ensures Note(coding, m, KEPT) == m["transfer-encoding" := "chunked"]
  {
    hide Lower, GoodName, Trim, KEPT;
    FramingKept();
  }

  lemma SizedHead(line: string, fields: seq<Sent>, n: nat) returns (p: Parser)
    requires PostLine(line) && CommonFields(fields) && n <= INT_MAX
        && |RequestHead(line, SizedFields(fields, n))| <= MAX_BUFFER
    ensures AtBody(RequestHead(line, SizedFields(fields, n)), p) && Sized(p) && p.fields.expected == n
    ensures p.startLine == Some(CheckLine(line).line)
    ensures p.fields == SetLength(CheckAll(FRESH_FIELDS.(headers := Meaning(SizedFields(fields, n), map[],
        KEPT)))).fields
  {
    hide KEPT, CheckAll, SetLength, AtBody, PrintDecimal, GoodField, Note, Meaning, Acceptable, RequestHead;
    var f, m := Sent("Content-Length", PrintDecimal(n)), Meaning(fields, map[], KEPT);
    LengthField(n, m);
    MeaningLast(fields, f, map[], KEPT);
    SizedChecks(m, n);
    p := PrintedHead(line, SizedFields(fields, n));
  }

  lemma ChunkedHeadIs(line: string, fields: seq<Sent>, coding: Sent) returns (p: Parser)
    requires PostLine(line) && CommonFields(fields) && SaysCoding(coding)
    requires |RequestHead(line, ChunkedFields(fields, coding))| <= MAX_BUFFER
    ensures AtBody(RequestHead(line, ChunkedFields(fields, coding)), p) && Chunked(p)
  {
    var m := Meaning(fields, map[], KEPT);
    CodingField(coding, m);
    hide KEPT, CheckAll, SetLength, AtBody, GoodField, Note, Meaning, Acceptable, RequestHead, Lower, Trim;
    MeaningLast(fields, coding, map[], KEPT);
    ChunkedChecks(m);
    p := PrintedHead(line, ChunkedFields(fields, coding));
  }

  lemma ChunkedHeadSays(line: string, fields: seq<Sent>)
    requires fields != []
    ensures SaysChunked(RequestHead(line, ChunkedFields(fields, CODING)))
  {
    hide SaysChunked, PrintBlock;
    PrintLast(fields, CODING);
    var front := line + CRLF + (PrintBlock(fields) + CRLF);
    SaysChunkedIf(front, ": ", CRLF2);
    OneBlank(CODING);
    Reassociate(line, PrintBlock(fields), CODING.name, ": ", CODING.value);
  }

  lemma OneBlank(f: Sent)
    requires f.before == " " && f.behind == ""
    ensures PrintField(f) == f.name + (": " + f.value)
  {
  }

  lemma Reassociate(line: string, block: string, name: string, colon: string, value: string)
    ensures line + (CRLF + ((block + (CRLF + (name + (colon + value)))) + CRLF2))
            == line + CRLF + (block + CRLF) + (name + (colon + (value + CRLF2)))
  {
  }

  lemma SizedSent(line: string, fields: seq<Sent>, body: string, pieces: seq<string>) returns (p: Parser)
    requires PostLine(line) && CommonFields(fields)
    requires var head := RequestHead(line, SizedFields(fields, |body|));
      && |head| + |body| <= MAX_BUFFER
      && pieces != [] && Flatten(pieces) == head + body && pieces[|pieces| - 1] != ""
    ensures SentSized(RequestHead(line, SizedFields(fields, |body|)), p, body, pieces)
  {
    hide PostLine, CommonFields, RequestHead, AtBody, CheckLine, CheckAll, SetLength, Meaning, KEPT;
    p := SizedHead(line, fields, |body|);
  }

  lemma AtPrintedChunks(line: string, fields: seq<Sent>, coding: Sent) returns (p: Parser)
    requires PostLine(line) && CommonFields(fields) && SaysCoding(coding)
    requires |RequestHead(line, ChunkedFields(fields, coding))| <= MAX_BUFFER
    ensures AtChunks(RequestHead(line, ChunkedFields(fields, coding)), p)
  {
    hide PostLine, RequestHead, AtBody, At, Find, CommonFields, SaysCoding, ChunkedFields;
    p := ChunkedHeadIs(line, fields, coding);
    ChunkedShape(line, fields, coding);
  }

  lemma ChunkedShape(line: string, fields: seq<Sent>, coding: Sent)
    requires PostLine(line) && CommonFields(fields) && SaysCoding(coding)
    ensures var head := RequestHead(line, ChunkedFields(fields, coding));
      Find(head, CRLF, 0) == Some(|line|) && !At(head, CRLF, |line| + 2)
  {
    hide Acceptable, CheckLine, RequestHead, At, Find, GoodFields, Lower, Trim;
    OneMoreField(fields, coding);
    hide GoodField;
    PrintedShape(line, ChunkedFields(fields, coding));
    FirstLineNotEmpty(line, ChunkedFields(fields, coding));
  }

  lemma OneMoreField(fields: seq<Sent>, f: Sent)
    requires GoodFields(fields) && GoodField(f)
    ensures fields + [f] != [] && GoodFields(fields + [f])
  {
    hide GoodField;
  }

  /** For any path, any fields the checks accept, any body and any chunking of it: the request printed with its length
      and the request printed with chunks, each in any allowed pieces, are accepted if and only if the cuts in their
      heads fit, and then leave the same body in a fresh parser. */
  lemma PrintedFramings(line: string, fields: seq<Sent>, body: string, pieces1: seq<string>,
                        chunks: seq<Chunk>, zero: string, pieces2: seq<string>)
    requires PostLine(line) && CommonFields(fields) && GoodChunks(chunks) && GoodEnd(zero) && Payload(chunks) == body
    requires var head1 := RequestHead(line, SizedFields(fields, |body|));
      && |head1| + |body| <= MAX_BUFFER
      && pieces1 != [] && Flatten(pieces1) == head1 + body && pieces1[|pieces1| - 1] != ""
    requires var head2 := RequestHead(line, ChunkedFields(fields, CODING));
      |head2| + |Wire(chunks, zero)| <= MAX_BUFFER && AllowedPieces(pieces2, head2 + Wire(chunks, zero))
    ensures Deliver(pieces1).0.Ok? <==> CutsFit(RequestHead(line, SizedFields(fields, |body|)), pieces1)
    ensures Deliver(pieces2).0.Ok? <==> CutsFit(RequestHead(line, ChunkedFields(fields, CODING)), pieces2)
    ensures Deliver(pieces1).0.Ok? && Deliver(pieces2).0.Ok? ==>
      Deliver(pieces1).1.body == Deliver(pieces2).1.body == body
  {
    hide *;
    var p1 := SizedSent(line, fields, body, pieces1);
    CodingSays();
    FieldsNotEmpty(fields);
    ChunkedHeadSays(line, fields);
    var head2 := RequestHead(line, ChunkedFields(fields, CODING));
    var p2 := AtPrintedChunks(line, fields, CODING);
    PrintedSent(head2, p2, chunks, zero, pieces2);
    TwoFramings(RequestHead(line, SizedFields(fields, |body|)), p1, body, pieces1, head2, p2, chunks, zero, pieces2);
  }

  lemma FieldsNotEmpty(fields: seq<Sent>)
    requires CommonFields(fields)
    ensures fields != []
  {
    hide Acceptable, GoodFields;
  }

  lemma PrintedSent(head: string, p: Parser, chunks: seq<Chunk>, zero: string, pieces: seq<string>)
    requires AtChunks(head, p) && |head| + |Wire(chunks, zero)| <= MAX_BUFFER
    requires GoodChunks(chunks) && GoodEnd(zero) && AllowedPieces(pieces, head + Wire(chunks, zero))
    ensures SentChunked(head, p, chunks, zero, pieces)
  {
    hide AtChunks, AllowedPieces, Wire, GoodChunks, GoodEnd;
  }

  /** The field in any letter case, sent in one piece: the parser takes all of them for chunks, but the body is the
      payload if and only if the printed head has the spelling the decoder looks for. */
  lemma PrintedSpelling(line: string, fields: seq<Sent>, coding: Sent, chunks: seq<Chunk>, zero: string)
    requires PostLine(line) && CommonFields(fields) && SaysCoding(coding) && GoodChunks(chunks) && GoodEnd(zero)
    requires |RequestHead(line, ChunkedFields(fields, coding))| + |Wire(chunks, zero)| <= MAX_BUFFER
    ensures var head := RequestHead(line, ChunkedFields(fields, coding));
      var (v, q) := AtOnce(head + Wire(chunks, zero));
      && v.Ok? && q.body == (if SaysChunked(head) then Payload(chunks) else Wire(chunks, zero))
      && (q.body == Payload(chunks) <==> SaysChunked(head))
  {
    hide *;
    var p := AtPrintedChunks(line, fields, coding);
    SpellingDecides(RequestHead(line, ChunkedFields(fields, coding)), p, chunks, zero);
  }

  /** A head without a capital E, for one, is not in that spelling. */
  lemma NoCapital(head: string)
    requires 'E' !in head
    ensures !SaysChunked(head)
  {
    var name := "Transfer-Encoding";
    if Contains(head, name) {
      AtChar(head, name, Find(head, name, 0).value, 9);
    }
  }
}

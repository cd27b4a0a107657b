/** The length that cuts a body: the checked Content-Length, unless a directive of the content type has replaced it. */
module BodyLength {
  import opened Text
  import opened Uri
  import opened Headers
  import opened Checks
  import opened HeaderRules
  import opened ContentTypes
  import opened Parser
  import opened Pipelining
  import opened Framing
  import opened PrintedRequests
  import opened PrintedStreams

  /** The directives are laid over the header map. */
  lemma {:induction false} DirectivesOver(parts: seq<string>, m: Map)
    ensures Directives(parts, m) == m + Directives(parts, map[])
    decreases parts
  {
    hide Directive;
    if parts != [] {
      var d := Directive(parts[0]);
      if d.Some? {
        var one: Map := map[d.value.0 := d.value.1];
        DirectivesOver(parts[1..], m[d.value.0 := d.value.1]);
        DirectivesOver(parts[1..], one);
        assert map[][d.value.0 := d.value.1] == one;
        assert m[d.value.0 := d.value.1] == m + one;
      } else {
        DirectivesOver(parts[1..], m);
      }
    }
  }

  /** What the check of the content type is given. */
  function BeforeContentType(f: Fields): Fields {
    var coding := CheckTransferEncoding(CheckConnection(CheckHost(f).fields).fields);
    CheckLocation(CheckContentLength(coding.fields).fields).fields
  }

  /** What the small checks leave alone. */
  lemma ConnectionKeeps(f: Fields)
    ensures CheckConnection(f).fields.headers == f.headers
    ensures CheckConnection(f).fields.contentLengthExists == f.contentLengthExists
  {
  }

  lemma CodingKeeps(f: Fields)
    ensures CheckTransferEncoding(f).fields.headers == f.headers
    ensures CheckTransferEncoding(f).fields.contentLengthExists == f.contentLengthExists
  {
  }

  lemma LocationKeeps(f: Fields)
    ensures CheckLocation(f).fields.headers == f.headers
    ensures CheckLocation(f).fields.contentLengthExists == f.contentLengthExists
  {
    hide BadByte;
  }

  lemma LengthStep(f: Fields)
    requires CheckContentLength(f).ok && !f.contentLengthExists
    ensures CheckContentLength(f).fields.headers == f.headers
    ensures CheckContentLength(f).fields.contentLengthExists <==> "content-length" in f.headers
    ensures "content-length" in f.headers ==>
      var length := f.headers["content-length"];
      length != "" && AllDecimal(length) && DecimalValue(length) <= INT_MAX
  {
    hide AllDecimal, DecimalValue;
  }

  /** The checks before that one, on a map they accept: but for the two keys of the host they leave it as it is. */
  lemma LengthChecked(f: Fields) returns (name: string, port: string)
    requires CheckAll(f).ok && !f.contentLengthExists
    ensures var g := BeforeContentType(f);
      && CheckAll(f) == CheckContentType(g) && "host" in f.headers
      && g.headers == f.headers["host_name" := name]["port" := port]
      && (g.contentLengthExists <==> "content-length" in f.headers)
      && ("content-length" in f.headers ==>
            var length := f.headers["content-length"];
            length != "" && AllDecimal(length) && DecimalValue(length) <= INT_MAX)
    ensures if ':' in f.headers["host"] then f.headers["host"] == name + ([':'] + port) && ':' !in name
            else name == port == ""
  {
    hide CheckHost, CheckConnection, CheckTransferEncoding, CheckContentLength, CheckLocation, CheckContentType;
    hide AllDecimal, DecimalValue;
    name, port := HostRule(f);
    var h := CheckHost(f).fields;
    var t := CheckTransferEncoding(CheckConnection(h).fields).fields;
    ConnectionKeeps(h);
    CodingKeeps(CheckConnection(h).fields);
    LengthStep(t);
    LocationKeeps(CheckContentLength(t).fields);
  }

  /** The map the content-type check leaves. */
  lemma TypeLeft(f: Fields)
    requires CheckContentType(f).ok
    ensures var all := f.headers + OwnDirectives(f.headers);
      CheckContentType(f).fields.headers ==
        if "content-type" in f.headers then all["content-type-value" := MediaType(f.headers["content-type"])] else all
  {
    if "content-type" in f.headers {
      DirectivesOver(DirectiveParts(f.headers["content-type"]), f.headers);
      hide BadCharset, BadBoundary, MediaType, DirectiveParts, Directives;
    } else {
      assert f.headers + map[] == f.headers;
    }
  }

  /** What it leaves under a key. */
  lemma KeyAfter(f: Fields, key: string)
    requires CheckContentType(f).ok && key in f.headers && key != "content-type-value"
    ensures var own := OwnDirectives(f.headers);
      && key in CheckContentType(f).fields.headers
      && CheckContentType(f).fields.headers[key] == if key in own then own[key] else f.headers[key]
  {
    TypeLeft(f);
    hide CheckContentType, OwnDirectives;
  }

  /** All that parse_headers does with a header map. */
  function Checked(m: Map): Check {
    SetLength(CheckAll(FRESH_FIELDS.(headers := m)))
  }

  /** The number in the field, and the one the parser goes by. */
  function LengthSent(m: Map): nat {
    if "content-length" in m && AllDecimal(m["content-length"]) then DecimalValue(m["content-length"]) else 0
  }

  function LengthRead(m: Map): SizeT {
    var own := OwnDirectives(m);
    if "content-length" !in m then 0
    else if "content-length" in own then ReadSize(own["content-length"])
    else ReadSize(m["content-length"])
  }

  /** No directive of the content type has the name of the length, or what is read from it is the number that was
      sent. */
  predicate LengthKept(m: Map) {
    var own := OwnDirectives(m);
    "content-length" in m && "content-length" in own ==> ReadSize(own["content-length"]) == LengthSent(m)
  }

  /** The length an accepted header map makes the parser expect: it is the checked one if and only if it was kept. */
  lemma ExpectedLength(m: Map)
    requires Checked(m).ok
    ensures Checked(m).fields.expected == LengthRead(m)
    ensures Checked(m).fields.expected == LengthSent(m) <==> LengthKept(m)
  {
    var f := FRESH_FIELDS.(headers := m);
    var name, port := LengthChecked(f);
    hide CheckAll, AllDecimal, DecimalValue, ReadSize, OwnDirectives;
    var g := BeforeContentType(f);
    hide CheckContentType, BeforeContentType;
    ContentTypeKeepsFraming(g);
    if "content-length" in m {
      KeyAfter(g, "content-length");
      SameDirectives(g.headers, m);
      AllDigits(m["content-length"], DecimalValue(m["content-length"]));
    }
  }

  /** The header map an accepted request ends up with: what was read, the two parts of the host, the directives of the
      content type over both, and the media type. */
  lemma MapLeft(m: Map) returns (name: string, port: string)
    requires Checked(m).ok
    ensures "host" in m
    ensures if ':' in m["host"] then m["host"] == name + ([':'] + port) && ':' !in name else name == port == ""
    ensures var all := m["host_name" := name]["port" := port] + OwnDirectives(m);
      Checked(m).fields.headers ==
        if "content-type" in m then all["content-type-value" := MediaType(m["content-type"])] else all
  {
    var f := FRESH_FIELDS.(headers := m);
    name, port := LengthChecked(f);
    hide CheckAll, AllDecimal, DecimalValue, ReadSize, OwnDirectives, MediaType;
    var g := BeforeContentType(f);
    hide CheckContentType, BeforeContentType;
    TypeLeft(g);
    SameDirectives(g.headers, m);
  }

  /** The host the server is picked by. */
  function HostRead(m: Map): string
    requires "host" in m
  {
    var own := OwnDirectives(m);
    if "host" in own then own["host"] else m["host"]
  }

  /** The same overwriting of the host: the value left is the checked one if and only if no directive has its name, or
      the directive says the same. */
  lemma HostLeft(m: Map)
    requires Checked(m).ok
    ensures "host" in m && "host" in Checked(m).fields.headers && Checked(m).fields.headers["host"] == HostRead(m)
    ensures Checked(m).fields.headers["host"] == m["host"] <==>
      ("host" in OwnDirectives(m) ==> OwnDirectives(m)["host"] == m["host"])
  {
    var f := FRESH_FIELDS.(headers := m);
    var name, port := LengthChecked(f);
    hide CheckAll, AllDecimal, DecimalValue, ReadSize, OwnDirectives;
    var g := BeforeContentType(f);
    hide CheckContentType, BeforeContentType;
    KeyAfter(g, "host");
    SameDirectives(g.headers, m);
  }

  lemma SameDirectives(m: Map, n: Map)
    requires ("content-type" in m <==> "content-type" in n)
        && ("content-type" in m ==> m["content-type"] == n["content-type"])
    ensures OwnDirectives(m) == OwnDirectives(n)
  {
    hide Directives, DirectiveParts;
  }

  /** The same for a header block. */
  lemma AcceptedLength(block: string)
    requires CheckBlock(FRESH_FIELDS, block).ok
    ensures var m := ReadBlock(block, KEPT);
      && m.Some? && CheckBlock(FRESH_FIELDS, block).fields.expected == LengthRead(m.value)
      && (CheckBlock(FRESH_FIELDS, block).fields.expected == LengthSent(m.value) <==> LengthKept(m.value))
  {
    hide ReadBlock, KEPT, CheckAll, SetLength, LengthRead, LengthSent, LengthKept;
    ExpectedLength(ReadBlock(block, KEPT).value);
  }

  /** A head with a length, and at least that much behind it. */
  predicate LengthArrived(head: string, p: Parser, body: string) {
    AtBody(head, p) && Sized(p) && p.fields.expected <= |body| && |head| + |body| <= MAX_BUFFER
  }

  /** The expected length cuts the body, whatever stands behind the head; the rest is left for the next request. But a
      lower-case letter right behind it, and only that, draws error 400. */
  lemma LengthCuts(head: string, p: Parser, body: string)
    requires LengthArrived(head, p, body)
    ensures var (v, q) := Feed(FRESH_PARSER, head + body);
      if p.fields.expected < |body| && 'a' <= body[p.fields.expected] <= 'z' then FailedWith((v, q), 400)
      else v.Ok? && q.pos <= |q.buffer| && q.body + q.buffer[q.pos..] == body && |q.body| == p.fields.expected
           && (q.body == body <==> p.fields.expected == |body|)
  {
    var n := p.fields.expected;
    if LowerCaseAt(body, n) {
      GoesOnLower(head, p, body);
    } else {
      CutBehindBody(head, p, body[..n], body[n..]);
      hide AtBody, Feed;
      Parts(head, body, n);
    }
  }

  lemma GoesOnLower(head: string, p: Parser, body: string)
    requires LengthArrived(head, p, body) && LowerCaseAt(body, p.fields.expected)
    ensures FailedWith(Feed(FRESH_PARSER, head + body), 400)
  {
    FeedBehindHead(head, p, body);
    var p' := Appended(p, body);
    TurnValid(p');
    assert p'.buffer[p.pos + p.fields.expected] == body[p.fields.expected];
    hide AtHead, HeadCheck, Feed;
  }

  predicate CutHere(head: string, p: Parser, front: string, rest: string) {
    && AtBody(head, p) && Sized(p) && p.fields.expected == |front| && |head| + |front| + |rest| <= MAX_BUFFER
    && !LowerCaseAt(rest, 0)
  }

  lemma CutBehindBody(head: string, p: Parser, front: string, rest: string)
    requires CutHere(head, p, front, rest)
    ensures var (v, q) := Feed(FRESH_PARSER, head + front + rest);
      v.Ok? && q.body == front && q.pos == |head| + |front| && q.buffer == head + front + rest
  {
    SizedWhole(head, p, front);
    hide AtBody, Feed;
    assert Whole(head + front);
    WholeThenMore(head + front, rest);
  }

  lemma Parts(head: string, body: string, n: nat)
    requires n <= |body|
    ensures head + body[..n] + body[n..] == head + body && (head + body)[|head| + n..] == body[n..]
    ensures body[..n] + body[n..] == body && (body[..n] == body <==> n == |body|)
  {
  }

  /** A media type with one directive. */
  function TypeWith(mediaType: string, key: string, value: string): string {
    mediaType + ([';'] + (key + (['='] + value)))
  }

  predicate PlainWord(s: string) {
    s != "" && ';' !in s && '=' !in s && forall i :: 0 <= i < |s| ==> !IsBlank(s[i]) && !('A' <= s[i] <= 'Z')
  }

  /** It is printed with one parameter and no blanks. */
  lemma TypeParts(mediaType: string, key: string, value: string)
    requires PlainWord(mediaType) && PlainWord(key) && PlainWord(value)
    ensures var t, ps := TypeWith(mediaType, key, value), [Parameter(key, value)];
      MediaType(t) == mediaType && DirectiveParts(t) == PrintParameters(ps) && GoodParameters(ps)
  {
    var p := Parameter(key, value);
    var part := key + (['='] + value);
    assert PrintParameter(p) == "" + (part + "") == part;
    assert [p][1..] == [] && PrintParameters([p][1..]) == [];
    assert PrintParameters([p]) == [part] + [] == [part];
    TwoJoined(mediaType, part);
    assert mediaType + "" == mediaType;
    assert TypeWith(mediaType, key, value) == PrintType(mediaType, "", [p]);
    hide PrintType, DirectiveParts, MediaType, PrintParameters;
    TypeRead(mediaType, "", [p]);
  }

  lemma TwoJoined(a: string, b: string)
    ensures Join([a] + [b], ';') == a + ([';'] + b)
  {
    assert ([a] + [b])[1..] == [b];
  }

  lemma OneDirective(mediaType: string, key: string, value: string, m: Map)
    requires PlainWord(mediaType) && PlainWord(key) && PlainWord(value)
    ensures Directives(DirectiveParts(TypeWith(mediaType, key, value)), m) == m[key := value]
  {
    var ps := [Parameter(key, value)];
    TypeParts(mediaType, key, value);
    ParametersRead(ps, m);
    assert ps[1..] == [] && Given(ps, m) == Given([], m[key := value]);
  }

  /** A header map of three fields. */
  function ThreeFields(host: string, contentType: string, length: string): Map {
    map["host" := host]["content-type" := contentType]["content-length" := length]
  }

  lemma NumberIsPlain(n: nat)
    ensures PlainWord(PrintDecimal(n))
  {
    var s := PrintDecimal(n);
    assert forall i :: 0 <= i < |s| ==> IsDecimal(s[i]);
  }

  lemma LengthIsPlain()
    ensures PlainWord("content-length")
  {
  }

  lemma TextIsPlain()
    ensures PlainWord("text/plain") && "text/plain" in CONTENT_TYPES && !("multipart/" <= "text/plain")
  {
    assert "text/plain"[0] != "multipart/"[0];
  }

  /** A content type of this shape is fine when its directive is neither a charset nor needs a boundary. */
  lemma TypeWithFine(m: Map, mediaType: string, key: string, value: string)
    requires PlainWord(mediaType) && PlainWord(key) && PlainWord(value) && key != "charset"
    requires mediaType in CONTENT_TYPES && !("multipart/" <= mediaType)
    requires "content-type" in m && m["content-type"] == TypeWith(mediaType, key, value)
    ensures CharsetFine(m) && BoundaryFine(m) && MediaTypeFine(m) && m["content-type"] != ""
  {
    TypeParts(mediaType, key, value);
    OneDirective(mediaType, key, value, map[]);
    assert TypeWith(mediaType, key, value)[0] == mediaType[0];
    hide TypeWith, MediaType, DirectiveParts, Directives, CONTENT_TYPES, PlainWord;
  }

  /** Such a map passes the checks when its parts do, and has a length and no chunks. */
  lemma ThreeFieldsPass(host: string, mediaType: string, value: string, length: string)
    requires host != "" && ':' !in host && length != "" && AllDecimal(length) && DecimalValue(length) <= INT_MAX
    requires PlainWord(mediaType) && PlainWord(value)
    requires mediaType in CONTENT_TYPES && !("multipart/" <= mediaType)
    ensures var c := Checked(ThreeFields(host, TypeWith(mediaType, "content-length", value), length));
      c.ok && c.fields.contentLengthExists && !c.fields.transferEncodingExists
  {
    var m := ThreeFields(host, TypeWith(mediaType, "content-length", value), length);
    LengthIsPlain();
    hide AllDecimal, DecimalValue, PlainWord, CONTENT_TYPES, TypeWith, CharsetFine, BoundaryFine, MediaTypeFine;
    TypeWithFine(m, mediaType, "content-length", value);
    Judged(m);
    hide CheckAll, SetLength;
  }

  function ThreeSent(host: string, contentType: string, length: string): seq<Sent> {
    [Sent("Host", host), Sent("Content-Type", contentType), Sent("Content-Length", length)]
  }

  /** Fields that announce n bytes, with a directive that says k. */
  function ReplacedFields(host: string, n: nat, k: nat): seq<Sent> {
    ThreeSent(host, TypeWith("text/plain", "content-length", PrintDecimal(k)), PrintDecimal(n))
  }

  lemma MeaningOfThree(a: Sent, b: Sent, c: Sent, kept: set<string>)
    ensures Meaning([a, b, c], map[], kept) == Note(c, Note(b, Note(a, map[], kept), kept), kept)
  {
    hide Note;
    assert [a, b, c][1..] == [b, c] && [b, c][1..] == [c] && [c][1..] == [];
    var m := Note(b, Note(a, map[], kept), kept);
    assert Meaning([c], m, kept) == Meaning([], Note(c, m, kept), kept);
    assert Meaning([b, c], Note(a, map[], kept), kept) == Meaning([c], m, kept);
  }

  lemma TypeName()
    ensures Lower("Content-Type") == "content-type"
  {
    hide Lower;
    LowerIs("Content-Type", "content-type");
  }

  lemma TypeNameGood()
    ensures GoodName("Content-Type")
  {
  }

  lemma TypeKept()
    ensures "host" in KEPT && "content-type" in KEPT
  {
  }

  lemma TypeValue(mediaType: string, key: string, value: string)
    requires PlainWord(mediaType) && PlainWord(key) && PlainWord(value)
    requires forall i :: 0 <= i < |mediaType + key + value| ==> (mediaType + key + value)[i] !in {'\r', '\n'}
    ensures var t := TypeWith(mediaType, key, value);
      '\r' !in t && '\n' !in t && Lower(Trim(t)) == t
  {
    var t := TypeWith(mediaType, key, value);
    forall i | 0 <= i < |t| ensures t[i] !in {'\r', '\n', ' ', '\t'} && !('A' <= t[i] <= 'Z') {
      var n := |mediaType|;
      if i < n {
        assert t[i] == mediaType[i] == (mediaType + key + value)[i];
      } else if n < i <= n + |key| {
        assert t[i] == key[i - n - 1] == (mediaType + key + value)[i - 1];
      } else if n + |key| + 1 < i {
        assert t[i] == value[i - n - |key| - 2] == (mediaType + key + value)[i - 2];
      }
    }
    PlainValue(t);
  }

  lemma ReplacedType(k: nat)
    ensures var t := TypeWith("text/plain", "content-length", PrintDecimal(k));
      GoodField(Sent("Content-Type", t)) && Lower(Trim(t)) == t
  {
    NumberIsPlain(k);
    PrintedIsPlain(k);
    hide PrintDecimal, GoodName, Lower, Trim, TypeWith;
    TypeNameGood();
    LengthIsPlain();
    TextIsPlain();
    NoLineEnds(PrintDecimal(k));
    TypeValue("text/plain", "content-length", PrintDecimal(k));
  }

  lemma NoLineEnds(value: string)
    requires '\r' !in value && '\n' !in value
    ensures var s := "text/plain" + "content-length" + value;
      forall i :: 0 <= i < |s| ==> s[i] !in {'\r', '\n'}
  {
    var front := "text/plain" + "content-length";
    var s := front + value;
    assert forall c <- front :: c != '\r' && c != '\n';
    forall i | 0 <= i < |s| ensures s[i] !in {'\r', '\n'} {
      assert s[i] == if i < |front| then front[i] else value[i - |front|];
    }
  }

  lemma HostNoted(host: string)
    requires PlainHost(host)
    ensures var f := Sent("Host", host);
      GoodField(f) && Note(f, map[], KEPT) == map["host" := host]
  {
    HostName();
    TypeKept();
    PlainValue(host);
    hide GoodName, Lower, Trim, KEPT;
  }

  lemma TypeNoted(t: string, m: Map)
    requires Lower(Trim(t)) == t
    ensures Note(Sent("Content-Type", t), m, KEPT) == m["content-type" := t]
  {
    TypeName();
    TypeKept();
    hide Lower, Trim, KEPT;
  }

  lemma ThreeGood(a: Sent, b: Sent, c: Sent)
    requires GoodField(a) && GoodField(b) && GoodField(c)
    ensures GoodFields([a, b, c])
  {
    hide GoodField;
  }

  /** What three fields mean. */
  lemma ThreeMean(a: Sent, b: Sent, c: Sent, m1: Map, m2: Map, m3: Map)
    requires Note(a, map[], KEPT) == m1 && Note(b, m1, KEPT) == m2 && Note(c, m2, KEPT) == m3
    ensures Meaning([a, b, c], map[], KEPT) == m3
  {
    hide Note, KEPT;
    MeaningOfThree(a, b, c, KEPT);
  }

  lemma ReplacedMeaning(host: string, n: nat, k: nat)
    requires PlainHost(host)
    ensures GoodFields(ReplacedFields(host, n, k))
    ensures Meaning(ReplacedFields(host, n, k), map[], KEPT)
            == ThreeFields(host, TypeWith("text/plain", "content-length", PrintDecimal(k)), PrintDecimal(n))
  {
    var t := TypeWith("text/plain", "content-length", PrintDecimal(k));
    var a, b, c := Sent("Host", host), Sent("Content-Type", t), Sent("Content-Length", PrintDecimal(n));
    var m1 := map["host" := host];
    var m2 := m1["content-type" := t];
    ReplacedType(k);
    HostNoted(host);
    TypeNoted(t, m1);
    LengthField(n, m2);
    hide PrintDecimal, GoodField, GoodFields, Note, TypeWith, KEPT, Meaning, Lower, Trim, PlainHost;
    ThreeGood(a, b, c);
    ThreeMean(a, b, c, m1, m2, m2["content-length" := PrintDecimal(n)]);
  }

  /** Any announced length n can be replaced by any k: the parser checks n and goes by k. */
  lemma LengthReplaced(line: string, host: string, n: nat, k: nat) returns (p: Parser)
    requires PostLine(line) && PlainHost(host) && n <= INT_MAX && k <= INT_MAX
    requires |RequestHead(line, ReplacedFields(host, n, k))| <= MAX_BUFFER
    ensures AtBody(RequestHead(line, ReplacedFields(host, n, k)), p) && Sized(p) && p.fields.expected == k
  {
    var t := TypeWith("text/plain", "content-length", PrintDecimal(k));
    ReplacedMeaning(host, n, k);
    DecimalLength(n);
    DecimalLength(k);
    NumberIsPlain(k);
    TextIsPlain();
    hide PrintDecimal, Checked, Meaning, KEPT, AllDecimal, DecimalValue, ReadSize, CONTENT_TYPES, PlainWord,
        RequestHead, AtBody,
      PostLine, GoodFields, TypeWith;
    ThreeFieldsPass(host, "text/plain", PrintDecimal(k), PrintDecimal(n));
    ExpectedLength(ThreeFields(host, t, PrintDecimal(n)));
    ReplacedRead(host, PrintDecimal(k), PrintDecimal(n));
    CheckedIs(ReplacedFields(host, n, k));
    p := PrintedHead(line, ReplacedFields(host, n, k));
  }

  lemma CheckedIs(fields: seq<Sent>)
    ensures Checked(Meaning(fields, map[], KEPT))
        == SetLength(CheckAll(FRESH_FIELDS.(headers := Meaning(fields, map[], KEPT))))
  {
    hide SetLength, CheckAll, Meaning, KEPT;
  }

  lemma ReplacedRead(host: string, value: string, length: string)
    requires PlainWord(value) && PlainWord("text/plain")
    ensures LengthRead(ThreeFields(host, TypeWith("text/plain", "content-length", value), length)) == ReadSize(value)
  {
    LengthIsPlain();
    OneDirective("text/plain", "content-length", value, map[]);
    hide TypeWith, Directives, DirectiveParts, ReadSize, PlainWord;
  }

  /** The desynchronisation: a body of the announced length is cut at k, and its rest is taken for the next request. */
  lemma ReplacedLengthCuts(line: string, host: string, k: nat, body: string)
    requires PostLine(line) && PlainHost(host) && k < |body| && !LowerCaseAt(body, k)
    requires |RequestHead(line, ReplacedFields(host, |body|, k))| + |body| <= MAX_BUFFER
    ensures var (v, q) := Feed(FRESH_PARSER, RequestHead(line, ReplacedFields(host, |body|, k)) + body);
      v.Ok? && q.pos <= |q.buffer| && q.body + q.buffer[q.pos..] == body && |q.body| == k
  {
    hide RequestHead, AtBody, PostLine, PlainHost, ReplacedFields, Feed;
    var p := LengthReplaced(line, host, |body|, k);
    LengthCuts(RequestHead(line, ReplacedFields(host, |body|, k)), p, body);
  }

  /** A header map whose content type replaces the host. */
  function TwoFields(host: string, contentType: string): Map {
    map["host" := host]["content-type" := contentType]
  }

  lemma HostIsPlain()
    ensures PlainWord("host")
  {
  }

  lemma HostFieldsPass(host: string, mediaType: string, other: string)
    requires host != "" && ':' !in host && PlainWord(mediaType) && PlainWord(other)
    requires mediaType in CONTENT_TYPES && !("multipart/" <= mediaType)
    ensures Checked(TwoFields(host, TypeWith(mediaType, "host", other))).ok
  {
    var m := TwoFields(host, TypeWith(mediaType, "host", other));
    HostIsPlain();
    hide PlainWord, CONTENT_TYPES, TypeWith, CharsetFine, BoundaryFine, MediaTypeFine;
    TypeWithFine(m, mediaType, "host", other);
    Judged(m);
    hide CheckAll, SetLength;
  }

  /** Any host can be replaced by any other: the first is checked, the second picks the server. */
  lemma HostReplaced(host: string, other: string)
    requires host != "" && ':' !in host && PlainWord(other)
    ensures var c := Checked(TwoFields(host, TypeWith("text/plain", "host", other)));
      c.ok && "host" in c.fields.headers && c.fields.headers["host"] == other
  {
    TextIsPlain();
    HostIsPlain();
    OneDirective("text/plain", "host", other, map[]);
    hide Checked, PlainWord, CONTENT_TYPES, TypeWith, Directives, DirectiveParts;
    HostFieldsPass(host, "text/plain", other);
    HostLeft(TwoFields(host, TypeWith("text/plain", "host", other)));
  }
}

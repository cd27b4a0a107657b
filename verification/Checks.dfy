/** What parse_headers does with the header map: seven checks, the body framing, the expected length. */
module Checks {
  import opened Text
  import opened Uri
  import opened Headers

  const KEPT: set<string> := {
    "host", "port", "transfer-encoding", "content-length", "connection", "user-agent", "content-type", "cookie",
    "location", "accept", "accept-encoding", "accept-language"
  }

  /** The fields of the parser the checks read and update. keepAlive is connection_status. */
  datatype Fields = Fields(
    headers: Map, keepAlive: bool, hostExists: bool, contentLengthExists: bool, transferEncodingExists: bool,
    errorCode: int, expected: SizeT)

  const FRESH_FIELDS := Fields(map[], true, false, false, false, 0, 0)

  datatype Check = Check(ok: bool, fields: Fields)

  /** An error; some of them leave connection_status alone. */
  function Fail(f: Fields, code: int, closes: bool): Check {
    Check(false, f.(errorCode := code, keepAlive := f.keepAlive && !closes))
  }

  predicate AllDecimal(s: string) {
    forall i :: 0 <= i < |s| ==> IsDecimal(s[i])
  }

  function WithHost(f: Fields, hostName: string, port: string): Check {
    Check(true, f.(headers := f.headers["host_name" := hostName]["port" := port], hostExists := true))
  }

  function CheckHost(f: Fields): Check {
    if "host" !in f.headers then Fail(f.(hostExists := false), 400, true)
    else
      var value := f.headers["host"];
      var colon := FindChar(value, ':');
      if value == "" then Fail(f, 400, true)
      else if colon.None? then WithHost(f, "", "")
      else
        var port := value[colon.value + 1..];
        if port == "" || !AllDecimal(port) || !(1 <= DecimalValue(port) <= 65535) then Fail(f, 400, true)
        else WithHost(f, value[..colon.value], port)
  }

  function CheckConnection(f: Fields): Check {
    if "connection" !in f.headers || f.headers["connection"] == "keep-alive" then Check(true, f.(keepAlive := true))
    else if f.headers["connection"] == "close" then Check(true, f.(keepAlive := false))
    else Fail(f, 400, true)
  }

  predicate Unsupported(coding: string) {
    coding == "gzip" || coding == "compress" || coding == "deflate" || coding == "identity"
  }

  function CheckTransferEncoding(f: Fields): Check {
    if "transfer-encoding" !in f.headers then Check(true, f.(transferEncodingExists := false))
    else
      var coding := f.headers["transfer-encoding"];
      var g := f.(transferEncodingExists := true);
      if Unsupported(coding) then Fail(g, 501, false)
      else if coding != "chunked" then Fail(g, 400, true)
      else Check(true, g)
  }

  const INT_MAX := 0x7fff_ffff

  function CheckContentLength(f: Fields): Check {
    if "content-length" !in f.headers then Check(true, f)
    else
      var length := f.headers["content-length"];
      var g := f.(contentLengthExists := true);
      if length == "" || !AllDecimal(length) || DecimalValue(length) > INT_MAX then Fail(g, 400, true)
      else Check(true, g)
  }

  function CheckLocation(f: Fields): Check {
    if "location" !in f.headers then Check(true, f)
    else
      var location := f.headers["location"];
      if location == "" || location[0] != '/' || |location| > 8000
         || exists i :: 0 <= i < |location| && BadByte(location[i]) then Fail(f, 400, true)
      else Check(true, f)
  }

  /** One `key=value` of a content type, if it is one. */
  function Directive(part: string): Option<(string, string)> {
    var directive := Trim(part);
    var equals := FindChar(directive, '=');
    if equals.None? then None
    else Some((Lower(Trim(directive[..equals.value])), Lower(Trim(directive[equals.value + 1..]))))
  }

  /** The map with one more directive. */
  function Noted(piece: string, m: Map): Map {
    var d := Directive(piece);
    if d.Some? then m[d.value.0 := d.value.1] else m
  }

  /** The do-while loop over the directives; it stores every one of them in the header map as well. */
  function Directives(parts: seq<string>, m: Map): Map {
    if parts == [] then m else Directives(parts[1..], Noted(parts[0], m))
  }

  const CONTENT_TYPES: set<string> := {
    "text/html", "text/plain", "text/css", "text/javascript", "text/csv", "text/xml", "application/json",
    "application/xml", "application/javascript", "application/x-www-form-urlencoded", "application/pdf",
    "application/zip", "application/gzip", "application/octet-stream", "application/x-tar",
    "application/vnd.ms-excel", "application/vnd.openxmlformats-officedocument.spreadsheetml.sheet",
    "application/vnd.ms-powerpoint", "application/vnd.openxmlformats-officedocument.presentationml.presentation",
    "application/msword", "application/vnd.openxmlformats-officedocument.wordprocessingml.document",
    "application/x-httpd-php", "multipart/form-data", "multipart/byteranges", "image/jpeg",
    "image/png", "image/gif", "image/bmp", "image/webp", "image/svg+xml", "image/x-icon", "image/tiff", "audio/mpeg",
    "audio/wav", "audio/ogg", "audio/webm", "audio/aac", "audio/mp4", "video/mp4", "video/mpeg", "video/webm",
    "video/ogg", "video/x-msvideo", "video/quicktime"
  }

  predicate BadCharset(directives: Map) {
    "charset" in directives && directives["charset"] != "utf-8" && directives["charset"] != "iso-8859-1"
  }

  predicate BadBoundary(mediaType: string, directives: Map) {
    "multipart/" <= mediaType && ("boundary" !in directives || directives["boundary"] == "")
  }

  function MediaTypeEnd(contentType: string): (n: nat)
    ensures n <= |contentType|
  {
    var semicolon := FindChar(contentType, ';');
    if semicolon.Some? then semicolon.value else |contentType|
  }

  function MediaType(contentType: string): string {
    Lower(Trim(contentType[..MediaTypeEnd(contentType)]))
  }

  function DirectiveParts(contentType: string): seq<string> {
    var end := MediaTypeEnd(contentType);
    if end < |contentType| then Split(contentType[end + 1..], ';') else []
  }

  function CheckContentType(f: Fields): Check {
    if "content-type" !in f.headers then Check(true, f)
    else
      var contentType := f.headers["content-type"];
      var parts := DirectiveParts(contentType);
      if contentType == "" then Fail(f, 400, true)
      else CheckMediaType(f.(headers := Directives(parts, f.headers)), MediaType(contentType), Directives(parts, map[]))
  }

  function CheckMediaType(f: Fields, mediaType: string, directives: Map): Check {
    if BadCharset(directives) then Fail(f, 415, true)
    else
      var g := f.(headers := f.headers["content-type-value" := mediaType]);
      if BadBoundary(mediaType, directives) then Fail(g, 400, true)
      else if mediaType !in CONTENT_TYPES then Fail(g, 415, true)
      else Check(true, g)
  }

  /** The checks in their order; the first failure ends them. The last, checkCookie, changes nothing. */
  function CheckAll(f: Fields): Check {
    var host := CheckHost(f);
    if !host.ok then host else
    var connection := CheckConnection(host.fields);
    if !connection.ok then connection else
    var coding := CheckTransferEncoding(connection.fields);
    if !coding.ok then coding else
    var length := CheckContentLength(coding.fields);
    if !length.ok then length else
    var location := CheckLocation(length.fields);
    if !location.ok then location else CheckContentType(location.fields)
  }

  /** The do-while loop of checkContentType over the directives behind the first semicolon. */
  method DirectivesLoop(part: string, m: Map) returns (headers: Map, directives: Map)
    ensures headers == Directives(Split(part, ';'), m) && directives == Directives(Split(part, ';'), map[])
  {
    headers, directives := m, map[];
    var rest, more := part, true;
    hide *;
    while more
      invariant Directives(Split(part, ';'), m) == if more then Directives(Split(rest, ';'), headers) else headers
      invariant Directives(Split(part, ';'), map[]) == if more then Directives(Split(rest, ';'), directives)
          else directives
      decreases |rest|, more
    {
      var semicolon := FindChar(rest, ';');
      var piece := if semicolon.Some? then rest[..semicolon.value] else rest;
      DirectiveStep(rest, headers);
      DirectiveStep(rest, directives);
      var d := Directive(piece);
      NotedIs(piece, headers);
      NotedIs(piece, directives);
      if d.Some? {
        directives := directives[d.value.0 := d.value.1];
        headers := headers[d.value.0 := d.value.1];
      }
      if semicolon.Some? {
        rest := rest[semicolon.value + 1..];
      } else {
        more := false;
      }
    }
  }

  lemma NotedIs(piece: string, m: Map)
    ensures Directive(piece).Some? ==> Noted(piece, m) == m[Directive(piece).value.0 := Directive(piece).value.1]
    ensures Directive(piece).None? ==> Noted(piece, m) == m
  {
    hide Directive;
  }

  lemma DirectiveStep(rest: string, m: Map)
    ensures var i := FindChar(rest, ';');
      Directives(Split(rest, ';'), m) ==
        if i.Some? then Directives(Split(rest[i.value + 1..], ';'), Noted(rest[..i.value], m)) else Noted(rest, m)
  {
    hide Directive;
    SplitStep(rest, ';');
    hide Split;
    var i := FindChar(rest, ';');
    if i.Some? {
      assert ([rest[..i.value]] + Split(rest[i.value + 1..], ';'))[1..] == Split(rest[i.value + 1..], ';');
    }
  }

  /** checkContentType. */
  method CheckContentTypeLoop(f: Fields) returns (c: Check)
    ensures c == CheckContentType(f)
  {
    if "content-type" !in f.headers {
      return Check(true, f);
    }
    var contentType := f.headers["content-type"];
    if contentType == "" {
      return Fail(f, 400, true);
    }
    var end := MediaTypeEnd(contentType);
    var headers, directives: Map := f.headers, map[];
    if end < |contentType| {
      headers, directives := DirectivesLoop(contentType[end + 1..], f.headers);
    }
    c := CheckMediaType(f.(headers := headers), MediaType(contentType), directives);
  }

  /** The loop over the digits of a port or a length. */
  method DigitsOnly(s: string) returns (ok: bool)
    ensures ok == AllDecimal(s)
  {
    var i := 0;
    while i < |s|
      invariant i <= |s| && AllDecimal(s[..i])
    {
      if !IsDecimal(s[i]) {
        return false;
      }
      i := i + 1;
    }
    assert s[..i] == s;
    return true;
  }

  /** checkHost. */
  method CheckHostLoop(f: Fields) returns (c: Check)
    ensures c == CheckHost(f)
  {
    if "host" !in f.headers {
      return Fail(f.(hostExists := false), 400, true);
    }
    var value := f.headers["host"];
    if value == "" {
      return Fail(f, 400, true);
    }
    var colon := FindChar(value, ':');
    var hostName, port := "", "";
    if colon.Some? {
      hostName, port := value[..colon.value], value[colon.value + 1..];
      if port == "" {
        return Fail(f, 400, true);
      }
      var digits := DigitsOnly(port);
      if !digits || !(1 <= DecimalValue(port) <= 65535) {
        return Fail(f, 400, true);
      }
    }
    c := WithHost(f, hostName, port);
  }

  /** checkContentLength. */
  method CheckContentLengthLoop(f: Fields) returns (c: Check)
    ensures c == CheckContentLength(f)
  {
    if "content-length" !in f.headers {
      return Check(true, f);
    }
    var length := f.headers["content-length"];
    var g := f.(contentLengthExists := true);
    if length == "" {
      return Fail(g, 400, true);
    }
    var digits := DigitsOnly(length);
    if !digits || DecimalValue(length) > INT_MAX {
      return Fail(g, 400, true);
    }
    c := Check(true, g);
  }

  /** checkLocation. */
  method CheckLocationLoop(f: Fields) returns (c: Check)
    ensures c == CheckLocation(f)
  {
    if "location" !in f.headers {
      return Check(true, f);
    }
    var location := f.headers["location"];
    if location == "" || location[0] != '/' || |location| > 8000 {
      return Fail(f, 400, true);
    }
    var i := 0;
    while i < |location|
      invariant i <= |location| && forall j :: 0 <= j < i ==> !BadByte(location[j])
    {
      if BadByte(location[i]) {
        return Fail(f, 400, true);
      }
      i := i + 1;
    }
    c := Check(true, f);
  }

  /** The chain of checks in parse_headers. */
  method CheckAllInTurn(f: Fields) returns (c: Check)
    ensures c == CheckAll(f)
  {
    c := CheckHostLoop(f);
    if c.ok { c := CheckConnection(c.fields); }
    if c.ok { c := CheckTransferEncoding(c.fields); }
    if c.ok { c := CheckContentLengthLoop(c.fields); }
    if c.ok { c := CheckLocationLoop(c.fields); }
    if c.ok { c := CheckContentTypeLoop(c.fields); }
  }

  /** What `iss >> expected_body_length` reads: it is not the checked value when a directive has overwritten it. */
  function ReadSize(s: string): SizeT {
    var n := LeadingInteger(s);
    if -TWO_64 < n < TWO_64 then ToSizeT(n) else TWO_64 - 1
  }

  /** Both framings at once are an error; then the expected length is set. */
  function SetLength(c: Check): Check {
    if !c.ok then c
    else if c.fields.contentLengthExists && c.fields.transferEncodingExists then Fail(c.fields, 400, false)
    else if c.fields.contentLengthExists && "content-length" in c.fields.headers then
      Check(true, c.fields.(expected := ReadSize(c.fields.headers["content-length"])))
    else Check(true, c.fields.(expected := 0))
  }

  /** parse_headers behind the search for the end of the block. */
  function CheckBlock(f: Fields, block: string): Check {
    var m := ReadBlock(block, KEPT);
    if m.None? then Fail(f, 400, true) else SetLength(CheckAll(f.(headers := m.value)))
  }

  lemma {:induction false} DirectivesKeep(parts: seq<string>, m: Map)
    ensures m.Keys <= Directives(parts, m).Keys
    decreases parts
  {
    if parts != [] {
      DirectivesKeep(parts[1..], Noted(parts[0], m));
    }
  }

  lemma MediaTypeKeeps(f: Fields, mediaType: string, directives: Map)
    ensures f.headers.Keys <= CheckMediaType(f, mediaType, directives).fields.headers.Keys
  {
    hide BadCharset, BadBoundary;
  }

  /** The checks only ever add keys. */
  lemma ContentTypeKeeps(f: Fields)
    ensures f.headers.Keys <= CheckContentType(f).fields.headers.Keys
  {
    if "content-type" in f.headers {
      hide CheckMediaType, DirectiveParts, MediaType, Directives;
      var parts := DirectiveParts(f.headers["content-type"]);
      DirectivesKeep(parts, f.headers);
      MediaTypeKeeps(f.(headers := Directives(parts, f.headers)), MediaType(f.headers["content-type"]),
          Directives(parts, map[]));
    }
  }

  predicate KnowsHost(f: Fields) {
    "host" in f.headers && f.hostExists
  }

  lemma HostKnows(f: Fields)
    ensures CheckHost(f).ok ==> KnowsHost(CheckHost(f).fields)
  {
  }

  lemma SmallChecksKeepHost(f: Fields)
    requires KnowsHost(f)
    ensures KnowsHost(CheckConnection(f).fields) && KnowsHost(CheckTransferEncoding(f).fields)
    ensures KnowsHost(CheckContentLength(f).fields) && KnowsHost(CheckLocation(f).fields)
  {
    hide BadByte, AllDecimal, DecimalValue, Unsupported;
  }

  lemma CheckAllHasHost(f: Fields)
    ensures CheckAll(f).ok ==> KnowsHost(CheckAll(f).fields)
  {
    hide CheckHost, CheckConnection, CheckTransferEncoding, CheckContentLength, CheckLocation, CheckContentType;
    if CheckHost(f).ok {
      var host := CheckHost(f).fields;
      HostKnows(f);
      SmallChecksKeepHost(host);
      SmallChecksKeepHost(CheckConnection(host).fields);
      SmallChecksKeepHost(CheckTransferEncoding(CheckConnection(host).fields).fields);
      var length := CheckContentLength(CheckTransferEncoding(CheckConnection(host).fields).fields).fields;
      SmallChecksKeepHost(length);
      ContentTypeKeeps(CheckLocation(length).fields);
      ContentTypeKeepsHost(CheckLocation(length).fields);
    }
  }

  /** A header block that is accepted names the host: the handler's lookup of it cannot fail. */
  lemma AcceptedHasHost(f: Fields, block: string)
    ensures CheckBlock(f, block).ok
        ==> "host" in CheckBlock(f, block).fields.headers && CheckBlock(f, block).fields.hostExists
  {
    hide CheckAll, ReadBlock, ReadSize, KEPT;
    var m := ReadBlock(block, KEPT);
    if m.Some? {
      CheckAllHasHost(f.(headers := m.value));
    }
  }

  lemma ContentTypeKeepsHost(f: Fields)
    ensures CheckContentType(f).fields.hostExists == f.hostExists
  {
    hide BadCharset, BadBoundary, MediaType, DirectiveParts, Directives;
  }
}

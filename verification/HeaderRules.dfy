/** The rules for a header map, one by one: which maps are accepted, with which code the others are refused, and what an
    accepted one says about the connection and the body. */
module HeaderRules {
  import opened Text
  import opened Uri
  import opened Headers
  import opened Checks

  /** Visible ASCII: what checkURI and checkLocation let through. */
  lemma VisibleOnly(c: char)
    ensures BadByte(c) <==> !('!' <= c <= '~')
  {
  }

  const DECIMALS := "0123456789"

  /** What a run of decimal digits is, and its value. */
  lemma DecimalMeans(s: string, n: nat, c: char)
    requires n < 10
    ensures IsDecimal(DECIMALS[n]) && (c !in DECIMALS ==> !IsDecimal(c))
    ensures AllDecimal(s) ==>
      AllDecimal(s + [DECIMALS[n]]) && DecimalValue(s + [DECIMALS[n]]) == 10 * DecimalValue(s) + n
    ensures DecimalValue("") == 0
  {
    if IsDecimal(c) {
      assert DECIMALS[c as int - '0' as int] == c;
    }
    assert (s + [DECIMALS[n]])[..|s|] == s;
  }

  predicate PortFine(value: string, colon: nat)
    requires colon < |value|
  {
    var port := value[colon + 1..];
    value[colon] == ':' && ':' !in value[..colon] && AllDecimal(port) && 1 <= DecimalValue(port) <= 65535
  }

  predicate HasPort(value: string) {
    exists i :: 0 <= i < |value| && PortFine(value, i)
  }

  /** A host is there; behind its first colon, if it has one, stands a port. */
  predicate HostFine(m: Map) {
    && "host" in m && m["host"] != ""
    && (':' in m["host"] ==> HasPort(m["host"]))
  }

  predicate ConnectionFine(m: Map) {
    "connection" in m ==> m["connection"] == "keep-alive" || m["connection"] == "close"
  }

  predicate SaysClose(m: Map) {
    "connection" in m && m["connection"] == "close"
  }

  predicate CodingFine(m: Map) {
    "transfer-encoding" in m ==> m["transfer-encoding"] == "chunked"
  }

  /** A coding the server knows but does not implement. */
  predicate KnownCoding(m: Map) {
    "transfer-encoding" in m && m["transfer-encoding"] in {"gzip", "compress", "deflate", "identity"}
  }

  predicate LengthFine(m: Map) {
    "content-length" in m ==>
      var length := m["content-length"];
      length != "" && AllDecimal(length) && DecimalValue(length) <= INT_MAX
  }

  predicate LocationFine(m: Map) {
    "location" in m ==>
      var location := m["location"];
      && 0 < |location| <= 8000 && location[0] == '/'
      && forall i :: 0 <= i < |location| ==> '!' <= location[i] <= '~'
  }

  /** The directives of the content type alone. */
  function OwnDirectives(m: Map): Map {
    if "content-type" in m then Directives(DirectiveParts(m["content-type"]), map[]) else map[]
  }

  predicate CharsetFine(m: Map) {
    var own := OwnDirectives(m);
    "charset" in own ==> own["charset"] == "utf-8" || own["charset"] == "iso-8859-1"
  }

  predicate BoundaryFine(m: Map) {
    var own := OwnDirectives(m);
    "content-type" in m && "multipart/" <= MediaType(m["content-type"]) ==> "boundary" in own && own["boundary"] != ""
  }

  predicate MediaTypeFine(m: Map) {
    "content-type" in m ==> MediaType(m["content-type"]) in CONTENT_TYPES
  }

  predicate OneFraming(m: Map) {
    !("content-length" in m && "transfer-encoding" in m)
  }

  /** The header maps that are accepted. */
  predicate Fine(m: Map) {
    && HostFine(m) && ConnectionFine(m) && CodingFine(m) && LengthFine(m) && LocationFine(m)
    && ("content-type" in m ==> m["content-type"] != "") && CharsetFine(m) && BoundaryFine(m) && MediaTypeFine(m)
    && OneFraming(m)
  }

  /** The code of the first rule that is broken. */
  function Code(m: Map): int {
    if !HostFine(m) || !ConnectionFine(m) then 400
    else if !CodingFine(m) then if KnownCoding(m) then 501 else 400
    else if !LengthFine(m) || !LocationFine(m) || ("content-type" in m && m["content-type"] == "") then 400
    else if !CharsetFine(m) then 415
    else if !BoundaryFine(m) then 400
    else if !MediaTypeFine(m) then 415
    else 400
  }

  /** The two refusals that leave connection_status as it was: a coding that is not implemented, and two framings. */
  predicate LeavesFlag(m: Map) {
    && HostFine(m) && ConnectionFine(m)
    && (KnownCoding(m) || (CodingFine(m) && LengthFine(m) && LocationFine(m) && TypeFine(m) && !OneFraming(m)))
  }

  lemma FirstColon(value: string)
    ensures ':' in value <==> FindChar(value, ':').Some?
    ensures ':' in value ==>
      var n := FindChar(value, ':').value;
      value[n] == ':' && ':' !in value[..n] && value == value[..n] + ([':'] + value[n + 1..])
  {
    var colon := FindChar(value, ':');
    hide FindChar;
    if colon.Some? {
      assert ':' !in value[..colon.value];
    }
  }

  lemma OneFirst(value: string, n: nat)
    requires n < |value| && value[n] == ':' && ':' !in value[..n]
    ensures FindChar(value, ':') == Some(n)
  {
    assert value == value[..n] + ([':'] + value[n + 1..]);
    FindCharFirst(value[..n], ':', value[n + 1..]);
  }

  /** The colon of a host is the first one. */
  lemma PortBehind(value: string, n: nat)
    requires n < |value| && value[n] == ':' && ':' !in value[..n]
    ensures HasPort(value) <==> AllDecimal(value[n + 1..]) && 1 <= DecimalValue(value[n + 1..]) <= 65535
  {
    if HasPort(value) {
      var i :| 0 <= i < |value| && PortFine(value, i);
      hide AllDecimal, DecimalValue;
      OneFirst(value, i);
      OneFirst(value, n);
    } else {
      assert !PortFine(value, n);
      hide AllDecimal, DecimalValue;
    }
  }

  predicate PortGood(port: string) {
    AllDecimal(port) && 1 <= DecimalValue(port) <= 65535
  }

  lemma PortedHost(f: Fields, value: string, n: nat)
    requires "host" in f.headers && f.headers["host"] == value && FindChar(value, ':') == Some(n)
    ensures CheckHost(f) ==
      if PortGood(value[n + 1..]) then WithHost(f, value[..n], value[n + 1..]) else Fail(f, 400, true)
  {
    hide AllDecimal, FindChar;
  }

  lemma BareHost(f: Fields, value: string)
    requires "host" in f.headers && f.headers["host"] == value && FindChar(value, ':').None?
    ensures CheckHost(f) == if value == "" then Fail(f, 400, true) else WithHost(f, "", "")
  {
    hide AllDecimal, DecimalValue, FindChar;
  }

  lemma NoHost(f: Fields)
    requires "host" !in f.headers
    ensures CheckHost(f) == Fail(f.(hostExists := false), 400, true)
  {
  }

  /** One check and its rule: what the other checks see of the map stays. */
  lemma HostRule(f: Fields) returns (name: string, port: string)
    ensures CheckHost(f).ok <==> HostFine(f.headers)
    ensures CheckHost(f).ok ==>
      && CheckHost(f).fields == f.(headers := f.headers["host_name" := name]["port" := port], hostExists := true)
      && (if ':' in f.headers["host"] then f.headers["host"] == name + ([':'] + port) && ':' !in name
          else name == port == "")
    ensures !CheckHost(f).ok ==> CheckHost(f).fields.errorCode == 400 && !CheckHost(f).fields.keepAlive
  {
    hide CheckHost, AllDecimal, DecimalValue, FindChar, HasPort;
    name, port := "", "";
    if "host" !in f.headers {
      NoHost(f);
    } else {
      var value := f.headers["host"];
      FirstColon(value);
      if ':' in value {
        var n := FindChar(value, ':').value;
        name, port := value[..n], value[n + 1..];
        PortBehind(value, n);
        PortedHost(f, value, n);
      } else {
        BareHost(f, value);
      }
    }
  }

  lemma ConnectionRule(f: Fields)
    ensures CheckConnection(f).ok <==> ConnectionFine(f.headers)
    ensures CheckConnection(f).ok ==> CheckConnection(f).fields == f.(keepAlive := !SaysClose(f.headers))
    ensures !CheckConnection(f).ok ==>
      CheckConnection(f).fields.errorCode == 400 && !CheckConnection(f).fields.keepAlive
  {
  }

  lemma CodingRule(f: Fields)
    ensures CheckTransferEncoding(f).ok <==> CodingFine(f.headers)
    ensures CheckTransferEncoding(f).ok ==>
      CheckTransferEncoding(f).fields == f.(transferEncodingExists := "transfer-encoding" in f.headers)
    ensures !CheckTransferEncoding(f).ok ==>
      var g := CheckTransferEncoding(f).fields;
      if KnownCoding(f.headers) then g.errorCode == 501 && g.keepAlive == f.keepAlive
      else g.errorCode == 400 && !g.keepAlive
  {
  }

  lemma LengthRule(f: Fields)
    ensures CheckContentLength(f).ok <==> LengthFine(f.headers)
    ensures CheckContentLength(f).ok ==>
      CheckContentLength(f).fields == f.(contentLengthExists := f.contentLengthExists || "content-length" in f.headers)
    ensures !CheckContentLength(f).ok ==>
      CheckContentLength(f).fields.errorCode == 400 && !CheckContentLength(f).fields.keepAlive
  {
    hide AllDecimal, DecimalValue;
  }

  lemma LocationRule(f: Fields)
    ensures CheckLocation(f).ok <==> LocationFine(f.headers)
    ensures CheckLocation(f).ok ==> CheckLocation(f).fields == f
    ensures !CheckLocation(f).ok ==> CheckLocation(f).fields.errorCode == 400 && !CheckLocation(f).fields.keepAlive
  {
    if "location" in f.headers {
      var location := f.headers["location"];
      forall i | 0 <= i < |location| ensures BadByte(location[i]) <==> !('!' <= location[i] <= '~') {
        VisibleOnly(location[i]);
      }
    }
  }

  predicate TypeFine(m: Map) {
    ("content-type" in m ==> m["content-type"] != "") && CharsetFine(m) && BoundaryFine(m) && MediaTypeFine(m)
  }

  function TypeCode(m: Map): int {
    if "content-type" in m && m["content-type"] == "" then 400
    else if !CharsetFine(m) then 415
    else if !BoundaryFine(m) then 400
    else 415
  }

  lemma TypeRule(f: Fields)
    ensures CheckContentType(f).ok <==> TypeFine(f.headers)
    ensures CheckContentType(f).ok ==>
      && CheckContentType(f).fields == f.(headers := CheckContentType(f).fields.headers)
      && f.headers.Keys <= CheckContentType(f).fields.headers.Keys
    ensures !CheckContentType(f).ok ==>
      CheckContentType(f).fields.errorCode == TypeCode(f.headers) && !CheckContentType(f).fields.keepAlive
  {
    ContentTypeKeeps(f);
    hide MediaType, DirectiveParts, Directives, CONTENT_TYPES;
  }

  /** What an accepted map means for the parser, and with which code any other one is refused. */
  lemma Judged(m: Map)
    ensures var c := SetLength(CheckAll(FRESH_FIELDS.(headers := m)));
      && (c.ok <==> Fine(m)) && (!c.ok ==> c.fields.errorCode == Code(m))
      && (!c.ok ==> (c.fields.keepAlive <==> !SaysClose(m) && LeavesFlag(m)))
      && (c.ok ==>
            && (c.fields.keepAlive <==> !SaysClose(m))
            && (c.fields.transferEncodingExists <==> "transfer-encoding" in m)
            && (c.fields.contentLengthExists <==> "content-length" in m))
  {
    var f := FRESH_FIELDS.(headers := m);
    var name, port := HostRule(f);
    var h := CheckHost(f).fields;
    var n := CheckConnection(h).fields;
    var t := CheckTransferEncoding(n).fields;
    var l := CheckContentLength(t).fields;
    ConnectionRule(h);
    CodingRule(n);
    LengthRule(t);
    LocationRule(l);
    TypeRule(CheckLocation(l).fields);
    hide CheckHost, CheckConnection, CheckTransferEncoding, CheckContentLength, CheckLocation, CheckContentType;
    hide HostFine, LengthFine, LocationFine, CharsetFine, BoundaryFine, MediaTypeFine, OwnDirectives, AllDecimal;
    if CheckHost(f).ok {
      OtherKeys(m, name, port);
    }
  }

  /** The rules behind the first do not look at the two keys of the host. */
  lemma OtherKeys(m: Map, name: string, port: string)
    ensures var g := m["host_name" := name]["port" := port];
      && (ConnectionFine(g) <==> ConnectionFine(m)) && (SaysClose(g) <==> SaysClose(m))
      && (CodingFine(g) <==> CodingFine(m)) && (LengthFine(g) <==> LengthFine(m))
          && (LocationFine(g) <==> LocationFine(m))
      && ("content-length" in g <==> "content-length" in m)
      && ("transfer-encoding" in g <==> "transfer-encoding" in m)
      && (KnownCoding(g) <==> KnownCoding(m))
      && (TypeFine(g) <==> TypeFine(m)) && TypeCode(g) == TypeCode(m)
  {
    hide AllDecimal, DecimalValue, MediaType, DirectiveParts, Directives, CONTENT_TYPES;
  }

  /** A header block: accepted exactly when its lines give a map and the map is fine. */
  lemma BlockJudged(block: string)
    ensures var m, c := ReadBlock(block, KEPT), CheckBlock(FRESH_FIELDS, block);
      && (c.ok <==> m.Some? && Fine(m.value))
      && (!c.ok ==> c.fields.errorCode == if m.None? then 400 else Code(m.value))
      && (c.ok ==>
            && (c.fields.keepAlive <==> !SaysClose(m.value))
            && (c.fields.transferEncodingExists <==> "transfer-encoding" in m.value)
            && (c.fields.contentLengthExists <==> "content-length" in m.value))
  {
    hide ReadBlock, KEPT, CheckAll, SetLength, Fine, Code, SaysClose;
    var m := ReadBlock(block, KEPT);
    if m.Some? {
      Judged(m.value);
    }
  }

  /** An accepted block never frames the body twice, names the host, and gives a multipart type its boundary. */
  lemma AcceptedBlock(block: string)
    requires CheckBlock(FRESH_FIELDS, block).ok
    ensures var m := ReadBlock(block, KEPT);
      && m.Some? && OneFraming(m.value) && HostFine(m.value) && BoundaryFine(m.value) && CharsetFine(m.value)
  {
    BlockJudged(block);
    hide ReadBlock, KEPT, CheckBlock, OneFraming, HostFine, BoundaryFine, CharsetFine;
  }
}

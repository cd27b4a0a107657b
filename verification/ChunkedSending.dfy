/** Get::setupChunkedSending: the chunk encoder, one response per call. */
module ChunkedSending {
  import opened Text
  import opened HexSize
  import opened ChunkDecoder
  import opened ChunkedMessage
  import opened WholeBuffer

  /** getMimeType. */
  function MimeType(path: string): (mime: string)
    ensures '\r' !in mime
  {
    var dot := FindLast(path, '.');
    if dot.None? then "text/html"
    else
      var ext := path[dot.value..];
      if ext == ".html" || ext == ".htm" then "text/html"
      else if ext == ".css" then "text/css"
      else if ext == ".mp4" then "video/mp4"
      else if ext == ".js" then "application/javascript"
      else if ext == ".png" then "image/png"
      else if ext == ".jpg" || ext == ".jpeg" then "image/jpeg"
      else if ext == ".gif" then "image/gif"
      else "application/octet-stream"
  }

  function HeaderFront(path: string): string {
    "HTTP/1.1 200 OK\r\nContent-Type: " + (MimeType(path) + CRLF)
  }

  function Header(path: string): string {
    HeaderFront(path) + ("Transfer-Encoding" + (": " + ("chunked" + CRLF2)))
  }

  function Frame(data: string): string {
    Print(|data|) + (CRLF + (data + CRLF))
  }

  const LAST := "0\r\n\r\n"

  /** What read(2) and stat(2) answer. */
  datatype Read = Failed | Bytes(data: string)

  /** The fields of CClient the encoder updates. */
  datatype Sender = Sender(sendHeader: bool, chunkedSending: bool, response: string)

  class Client {
    var sendHeader: bool
    var chunkedSending: bool
    var response: string
    var fileSize: nat

    function View(): Sender
      reads this
    {
      Sender(sendHeader, chunkedSending, response)
    }

    constructor ()
      ensures View() == Sender(false, false, "")
    {
      sendHeader, chunkedSending, response, fileSize := false, false, "", 0;
    }

    /** getErrorPageFromConfig, with the page it finds as a parameter. */
    method ErrorPage(page: string) returns (r: string)
      modifies this
      ensures r == page && View() == old(View()).(chunkedSending := true)
    {
      chunkedSending := true;
      r := page;
    }

    /** The file's size, the bytes read and the error page are what the file system answers. */
    method SetupChunkedSending(path: string, size: Option<nat>, read: Read, page: string) returns (r: string)
      modifies this
      ensures (r, View()) == Send(old(View()), path, size, read, page)
    {
      if !sendHeader {
        if size.None? {
          r := ErrorPage(page);
          return;
        }
        fileSize := size.value;
        response := Header(path);
        sendHeader := true;
      } else {
        if read.Failed? {
          r := ErrorPage(page);
          return;
        } else if read.data == "" {
          response := LAST;
          chunkedSending := true;
        } else {
          response := Frame(read.data);
        }
      }
      r := response;
    }
  }

  function Send(s: Sender, path: string, size: Option<nat>, read: Read, page: string): (string, Sender) {
    if !s.sendHeader then
      if size.None? then (page, s.(chunkedSending := true))
      else (Header(path), Sender(true, s.chunkedSending, Header(path)))
    else if read.Failed? then (page, s.(chunkedSending := true))
    else if read.data == "" then (LAST, Sender(true, true, LAST))
    else (Frame(read.data), Sender(true, s.chunkedSending, Frame(read.data)))
  }

  /** The transmission is over exactly when there is nothing more to read, or something failed; then the page goes out,
      and the header has gone out exactly once. */
  lemma SendEnds(s: Sender, path: string, size: Option<nat>, read: Read, page: string)
    requires !s.chunkedSending
    ensures var (r, s') := Send(s, path, size, read, page);
        var failed := if s.sendHeader then read.Failed? else size.None?;
      && (s'.chunkedSending <==> failed || (s.sendHeader && read == Bytes("")))
      && (failed ==> r == page && s'.sendHeader == s.sendHeader)
      && (!failed ==> s'.sendHeader && r == s'.response)
  {
    hide Header, Frame;
  }

  /** The responses of the calls that send a file: one per element of `calls`, the first call's being the header. */
  function Responses(s: Sender, path: string, size: nat, calls: seq<Read>, page: string): seq<string>
    decreases calls
  {
    if calls == [] then []
    else
      var (r, s') := Send(s, path, Some(size), calls[0], page);
      [r] + Responses(s', path, size, calls[1..], page)
  }

  /** A transmission: the header call, one call per non-empty read, and the call that sees the end of the file. */
  function Calls(datas: seq<string>): seq<Read> {
    [Bytes("")] + BodyCalls(datas)
  }

  function BodyCalls(datas: seq<string>): seq<Read> {
    if datas == [] then [Bytes("")] else [Bytes(datas[0])] + BodyCalls(datas[1..])
  }

  function Chunks(datas: seq<string>): seq<Chunk> {
    if datas == [] then [] else [Chunk(Print(|datas[0]|), datas[0])] + Chunks(datas[1..])
  }

  predicate GoodReads(datas: seq<string>) {
    forall i :: 0 <= i < |datas| ==> 0 < |datas[i]| < 0x8000_0000
  }

  lemma {:induction false} ChunksGood(datas: seq<string>)
    requires GoodReads(datas)
    ensures GoodChunks(Chunks(datas)) && Payload(Chunks(datas)) == Flatten(datas)
  {
    if datas != [] {
      PrintThenRead(|datas[0]|);
      ChunksGood(datas[1..]);
      assert Chunks(datas)[1..] == Chunks(datas[1..]);
    }
  }

  lemma WireStep(datas: seq<string>)
    requires datas != []
    ensures Wire(Chunks(datas), "0") == Frame(datas[0]) + Wire(Chunks(datas[1..]), "0")
  {
    assert Chunks(datas)[1..] == Chunks(datas[1..]);
    var n, rest := Print(|datas[0]|), Wire(Chunks(datas[1..]), "0");
    assert Frame(datas[0]) + rest == n + (CRLF + (datas[0] + (CRLF + rest)));
  }

  lemma {:induction false} BodyResponses(s: Sender, path: string, size: nat, datas: seq<string>, page: string)
    requires s.sendHeader && GoodReads(datas)
    ensures var rs := Responses(s, path, size, BodyCalls(datas), page);
      Flatten(rs) == Wire(Chunks(datas), "0") && rs != [] && rs[|rs| - 1] == LAST
    decreases datas
  {
    if datas == [] {
      var rs := Responses(s, path, size, BodyCalls(datas), page);
      var s' := Send(s, path, Some(size), Bytes(""), page).1;
      assert BodyCalls(datas)[1..] == [];
      assert Responses(s', path, size, [], page) == [];
      assert rs == [LAST];
      assert Flatten(rs) == LAST + Flatten(rs[1..]) == LAST;
    } else {
      var s' := Send(s, path, Some(size), Bytes(datas[0]), page).1;
      assert BodyCalls(datas)[1..] == BodyCalls(datas[1..]);
      BodyResponses(s', path, size, datas[1..], page);
      var tail := Responses(s', path, size, BodyCalls(datas[1..]), page);
      assert Responses(s, path, size, BodyCalls(datas), page) == [Frame(datas[0])] + tail;
      assert ([Frame(datas[0])] + tail)[1..] == tail;
      WireStep(datas);
    }
  }

  /** The carriage returns of the header, the last two bytes apart. */
  lemma HeaderEnds(path: string)
    ensures ChunkedHead(Header(path))
  {
    var h := Header(path);
    SaysChunkedIf(HeaderFront(path), ": ", CRLF2);
    assert At(h, CRLF2, |h| - 4) by {
      assert h[|h| - 4..] == CRLF2;
    }
    forall j | 0 <= j < |h| - 4 ensures !At(h, CRLF2, j) {
      AtCrlf2(h, j);
      HeaderCarriageReturns(path, j);
    }
    FindIs(h, CRLF2, 0, |h| - 4);
  }

  lemma HeaderCarriageReturns(path: string, j: nat)
    requires j < |Header(path)| - 4
    ensures Header(path)[j] == '\r' ==> Header(path)[j + 2] != '\r'
  {
    var h, m, front := Header(path), MimeType(path), HeaderFront(path);
    var back := "Transfer-Encoding" + (": " + ("chunked" + CRLF2));
    var start := "HTTP/1.1 200 OK\r\nContent-Type: ";
    if j < |front| - 2 {
      if j < |start| {
        assert h[j] == start[j];
        if j + 2 < |start| {
          assert h[j + 2] == start[j + 2];
        }
      } else {
        assert h[j] == m[j - |start|];
      }
    } else {
      assert h[|front|] == back[0];
      if |front| <= j {
        assert h[j] == back[j - |front|] && h[j + 2] == back[j + 2 - |front|];
      }
    }
  }

  /** What is sent in all. */
  lemma SentWire(path: string, size: nat, datas: seq<string>, page: string)
    requires GoodReads(datas)
    ensures var rs := Responses(Sender(false, false, ""), path, size, Calls(datas), page);
      rs != [] && rs[|rs| - 1] == LAST && Flatten(rs) == Header(path) + Wire(Chunks(datas), "0")
  {
    var start := Sender(false, false, "");
    var rs := Responses(start, path, size, Calls(datas), page);
    var s' := Send(start, path, Some(size), Bytes(""), page).1;
    assert Calls(datas)[1..] == BodyCalls(datas);
    var tail := Responses(s', path, size, BodyCalls(datas), page);
    assert rs == [Header(path)] + tail && rs[1..] == tail;
    BodyResponses(s', path, size, datas, page);
  }

  /** The encoder's own responses, or any other allowed cutting of the same bytes, decode to exactly what was read. */
  lemma RoundTrip(path: string, size: nat, datas: seq<string>, page: string, pieces: seq<string>)
    requires GoodReads(datas)
    requires var rs := Responses(Sender(false, false, ""), path, size, Calls(datas), page);
      |Flatten(rs)| < TWO_64 - 2 && (pieces == rs || AllowedPieces(pieces, Flatten(rs)))
    ensures forall n :: 0 <= n < |pieces| ==> !DecodeAll(FRESH, pieces[..n]).done
    ensures DecodeAll(FRESH, pieces).done && DecodeAll(FRESH, pieces).out == Flatten(datas)
  {
    SentWire(path, size, datas, page);
    HeaderEnds(path);
    ChunksGood(datas);
    ZeroEnds();
    DecodePieces(Header(path), Chunks(datas), "0", pieces);
  }

  lemma GroupFront(line: string, crlf: string, t: string, x: string, y: string, body: string)
    ensures line + (crlf + t) + x + y + body == line + (crlf + (t + x + y + body))
  {
  }

  lemma GroupCoding(front: string, name: string, colon: string, value: string, end: string, body: string)
    ensures front + (name + (colon + (value + end))) + body == front + ((name + (colon + value)) + (end + body))
  {
  }

  lemma Spelled()
    ensures "Transfer-Encoding" + (": " + "chunked") == "Transfer-Encoding: chunked"
    ensures "HTTP/1.1 200 OK\r\nContent-Type: " == "HTTP/1.1 200 OK" + (CRLF + "Content-Type: ")
  {
  }

  /** unchunk_data takes what the encoder sends for a new request, spelled as it wants it. */
  lemma SentIsNew(path: string, body: string)
    ensures NewRequest(Header(path) + body) && Contains(Header(path) + body, "Transfer-Encoding: chunked")
  {
    var mime, coding := MimeType(path) + CRLF, "Transfer-Encoding" + (": " + ("chunked" + CRLF2));
    Spelled();
    GroupFront("HTTP/1.1 200 OK", CRLF, "Content-Type: ", mime, coding, body);
    GroupCoding(HeaderFront(path), "Transfer-Encoding", ": ", "chunked", CRLF2, body);
    hide MimeType, NewRequest, Contains;
    FirstLineSaysHttp("HTTP/1.1 200 OK", "Content-Type: " + mime + coding + body);
    ContainsMiddle(HeaderFront(path), "Transfer-Encoding" + (": " + "chunked"), CRLF2 + body);
  }

  lemma FirstLineSaysHttp(line: string, rest: string)
    requires line == "HTTP/1.1 200 OK"
    ensures NewRequest(line + (CRLF + rest))
  {
    FindLineEnd(line, rest);
    assert (line + (CRLF + rest))[..|line|] == line;
    ContainsMiddle("", "HTTP", "/1.1 200 OK");
    assert "" + ("HTTP" + "/1.1 200 OK") == line;
  }

  /** So unchunk_data, given all the encoder sends in one buffer, writes the bytes that were read. */
  lemma RoundTripInOneBuffer(path: string, size: nat, datas: seq<string>, page: string, flag: bool)
    requires GoodReads(datas)
    requires |Flatten(Responses(Sender(false, false, ""), path, size, Calls(datas), page))| < TWO_64 - 2
    ensures var sent := Flatten(Responses(Sender(false, false, ""), path, size, Calls(datas), page));
      var (u, _) := UnchunkCall(flag, sent);
      u.outcome == Filename && u.written == Flatten(datas)
  {
    var sent := Flatten(Responses(Sender(false, false, ""), path, size, Calls(datas), page));
    SentWire(path, size, datas, page);
    WireEndsLong(Header(path), Chunks(datas));
    assert Flatten([sent]) == sent;
    hide Responses, Contains, NewRequest, Wire, Header, Calls, DecodeAll;
    RoundTrip(path, size, datas, page, [sent]);
    HeaderEnds(path);
    ChunksGood(datas);
    ZeroEnds();
    SentIsNew(path, Wire(Chunks(datas), "0"));
    BothGivePayload(Header(path), Chunks(datas), "0", [sent], flag);
  }

  lemma WireEndsLong(head: string, chunks: seq<Chunk>)
    ensures |head + Wire(chunks, "0")| >= 3
  {
    WireIsLonger(chunks, "0" + (CRLF + CRLF));
  }

  lemma ZeroEnds()
    ensures GoodEnd("0")
  {
    assert "0"[..0] == "";
  }
}

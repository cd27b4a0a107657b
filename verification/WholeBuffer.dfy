/** unchunk_data: the decoder that wants the whole message in one buffer. */
module WholeBuffer {
  import opened Text
  import opened HexSize
  import opened ChunkDecoder
  import opened ChunkedMessage

  /** OutOfBounds: the write that follows a rejected size line reads past the end of the buffer. */
  datatype Outcome = Filename | Error400 | OutOfBounds

  /** How the call ends, the bytes written to the file, and the bytes it did not look at. */
  datatype Unchunked = Unchunked(outcome: Outcome, written: string, rest: string)

  function Unchunk(s: string): Unchunked {
    var eol := Find(s, CRLF, 0);
    if s == "" then Unchunked(Filename, "", "")
    else if eol.None? then Unchunked(Error400, "", s)
    else
      var size := ToSizeT(HexToDec(s[..eol.value]));
      var rest := s[eol.value + 2..];
      if size == 0 then Unchunked(Filename, "", rest)
      else if Want(size) > |rest| then Unchunked(Error400, "", rest)
      else if size + 2 > |rest| then Unchunked(OutOfBounds, "", rest)
      else Write(rest[..size], Unchunk(rest[size + 2..]))
  }

  function Write(data: string, u: Unchunked): Unchunked {
    Unchunked(u.outcome, data + u.written, u.rest)
  }

  lemma WriteTwice(a: string, b: string, u: Unchunked)
    ensures Write(a, Write(b, u)) == Write(a + b, u)
  {
    assert a + (b + u.written) == a + b + u.written;
  }

  lemma UnchunkStep(s: string, eol: nat, size: SizeT)
    requires Find(s, CRLF, 0) == Some(eol) && size == ToSizeT(HexToDec(s[..eol])) && size != 0
    requires Want(size) <= |s| - eol - 2 && size + 2 <= |s| - eol - 2
    ensures Unchunk(s) == Write(s[eol + 2..][..size], Unchunk(s[eol + 2..][size + 2..]))
  {
  }

  /** The loop over a chunked body; chunk_size is kept beside the string it measures and always equals its length. */
  method UnchunkLoop(body: string) returns (r: Unchunked)
    ensures r == Unchunk(body)
  {
    var stringged, chunkSize, written := body, |body|, "";
    assert Write("", Unchunk(body)) == Unchunk(body);
    while chunkSize > 0
      invariant chunkSize == |stringged|
      invariant Unchunk(body) == Write(written, Unchunk(stringged))
      decreases chunkSize
    {
      assert written + "" == written;
      var eol := Find(stringged, CRLF, 0);
      if eol.None? {
        return Unchunked(Error400, written, stringged);
      }
      ghost var whole := stringged;
      var read := HexToDecLoop(stringged[..eol.value]);
      var charsToRead := ToSizeT(read);
      stringged := stringged[eol.value + 2..];
      chunkSize := chunkSize - (eol.value + 2);
      if charsToRead == 0 {
        return Unchunked(Filename, written, stringged);
      }
      if Want(charsToRead) > chunkSize {
        return Unchunked(Error400, written, stringged);
      }
      if charsToRead + 2 > chunkSize {
        return Unchunked(OutOfBounds, written, stringged);
      }
      UnchunkStep(whole, eol.value, charsToRead);
      var data := stringged[..charsToRead];
      stringged := stringged[charsToRead + 2..];
      chunkSize := chunkSize - (charsToRead + 2);
      WriteTwice(written, data, Unchunk(stringged));
      written := written + data;
    }
    assert written + "" == written;
    r := Unchunked(Filename, written, "");
  }

  predicate NewRequest(s: string) {
    var eol := Find(s, CRLF, 0);
    Contains(s[..if eol.Some? then eol.value else |s|], "HTTP")
  }

  /** A call of unchunk_data, given the flag the last call left, and the flag it leaves. */
  function UnchunkCall(chunked: bool, s: string): (Unchunked, bool) {
    var pos := Find(s, CRLF2, 0);
    if NewRequest(s) then
      if pos.None? then (Unchunked(Error400, "", s), chunked)
      else
        var body := s[pos.value + 4..];
        if Contains(s, "Transfer-Encoding: chunked") then (Unchunk(body), true)
            else (Unchunked(Filename, body, ""), false)
    else (if chunked then Unchunk(s) else Unchunked(Filename, s, ""), chunked)
  }

  /** unchunk_data with its static flag; file names are not part of this model. */
  class WholeDecoder {
    var chunked: bool

    constructor ()
      ensures !chunked
    {
      chunked := false;
    }

    method UnchunkData(s: string) returns (r: Unchunked)
      modifies this
      ensures (r, chunked) == UnchunkCall(old(chunked), s)
    {
      var body := s;
      var eol := Find(s, CRLF, 0);
      if Contains(s[..if eol.Some? then eol.value else |s|], "HTTP") {
        var pos := Find(s, CRLF2, 0);
        if pos.None? {
          return Unchunked(Error400, "", s);
        }
        chunked := Contains(s, "Transfer-Encoding: chunked");
        body := s[pos.value + 4..];
      }
      if !chunked {
        return Unchunked(Filename, body, "");
      }
      r := UnchunkLoop(body);
    }
  }

  /** What the two decoders have in common on the same bytes. */
  predicate Agree(u: Unchunked, p: Progress) {
    && (p.done ==> u.outcome == Filename && p.out == u.written + AfterLastSize(u.rest))
    && (!p.done ==>
          && p.out == u.written
          && (u.outcome == Filename <==> p.decoder.readingSize && p.decoder.chunkBuffer == ""))
  }

  lemma AgreeBehind(data: string, u: Unchunked, p: Progress)
    requires Agree(u, p)
    ensures Agree(Write(data, u), Prepend(data, p))
  {
    assert data + (u.written + AfterLastSize(u.rest)) == data + u.written + AfterLastSize(u.rest);
  }

  /** A size line of value zero, and one whose data has not arrived. */
  lemma AgreeAtLine(d: Decoder)
    requires LineReady(d) && (TakeLine(d).chunkSize == 0 || !DataReady(TakeLine(d)))
    ensures Agree(Unchunk(d.chunkBuffer), DecodeChunks(d))
  {
    hide At;
    var d1 := TakeLine(d);
    if d1.chunkSize == 0 {
      assert "" + AfterLastSize(d1.chunkBuffer) == AfterLastSize(d1.chunkBuffer);
    } else {
      UnfoldLine(d);
    }
  }

  lemma UnchunkAtData(d: Decoder)
    requires LineReady(d) && TakeLine(d).chunkSize != 0 && DataReady(TakeLine(d)) && |d.chunkBuffer| < TWO_64
    requires Unchunk(d.chunkBuffer).outcome != OutOfBounds
    ensures var d1 := TakeLine(d); Unchunk(d.chunkBuffer) == Write(Data(d1), Unchunk(TakeData(d1).chunkBuffer))
  {
    InBounds(d);
    hide At, Unchunk, HexToDec, ToSizeT, Find;
    var d1, eol := TakeLine(d), Find(d.chunkBuffer, CRLF, 0).value;
    var rest := d.chunkBuffer[eol + 2..];
    assert d1.chunkBuffer == rest && Want(d1.chunkSize) == d1.chunkSize + 2;
    UnchunkStep(d.chunkBuffer, eol, d1.chunkSize);
    assert Data(d1) == rest[..d1.chunkSize];
    assert TakeData(d1).chunkBuffer == rest[d1.chunkSize + 2..];
  }

  /** A size line with its data. */
  lemma AgreeAtData(d: Decoder)
    requires LineReady(d) && TakeLine(d).chunkSize != 0 && DataReady(TakeLine(d)) && |d.chunkBuffer| < TWO_64
    requires Unchunk(d.chunkBuffer).outcome != OutOfBounds
    requires var next := TakeData(TakeLine(d));
        Unchunk(next.chunkBuffer).outcome != OutOfBounds ==> Agree(Unchunk(next.chunkBuffer), DecodeChunks(next))
    ensures Agree(Unchunk(d.chunkBuffer), DecodeChunks(d))
  {
    hide *;
    var d1 := TakeLine(d);
    var next := TakeData(d1);
    UnfoldLine(d);
    UnfoldData(d1);
    AgreeAfterWrite(d.chunkBuffer, Data(d1), Unchunk(next.chunkBuffer), DecodeChunks(next)) by {
      UnchunkAtData(d);
    }
  }

  lemma AgreeAfterWrite(s: string, data: string, u: Unchunked, p: Progress)
    requires Unchunk(s) == Write(data, u) && Unchunk(s).outcome != OutOfBounds
    requires u.outcome != OutOfBounds ==> Agree(u, p)
    ensures Agree(Unchunk(s), Prepend(data, p))
  {
    AgreeBehind(data, u, p);
  }

  lemma InBounds(d: Decoder)
    requires LineReady(d) && TakeLine(d).chunkSize != 0 && DataReady(TakeLine(d)) && |d.chunkBuffer| < TWO_64
    requires Unchunk(d.chunkBuffer).outcome != OutOfBounds
    ensures TakeLine(d).chunkSize + 2 <= |TakeLine(d).chunkBuffer|
  {
    hide At;
  }

  /** On every input, well formed or not, on which unchunk_data stays inside its buffer, the resumable decoder has
      written the same bytes; it answers true only where unchunk_data succeeds, and then appends what stands behind. */
  lemma {:induction false} DecodersAgree(d: Decoder)
    requires d.readingSize && |d.chunkBuffer| < TWO_64 && Unchunk(d.chunkBuffer).outcome != OutOfBounds
    ensures Agree(Unchunk(d.chunkBuffer), DecodeChunks(d))
    decreases |d.chunkBuffer|
  {
    hide At;
    if LineReady(d) {
      var d1 := TakeLine(d);
      if d1.chunkSize == 0 || !DataReady(d1) {
        AgreeAtLine(d);
      } else {
        if Unchunk(TakeData(d1).chunkBuffer).outcome != OutOfBounds {
          DecodersAgree(TakeData(d1));
        }
        AgreeAtData(d);
      }
    }
  }

  lemma UnchunkFrame(c: Chunk, rest: string)
    requires GoodChunk(c)
    ensures Unchunk(c.line + (CRLF + (c.data + (CRLF + rest)))) == Write(c.data, Unchunk(rest))
  {
    hide At, Unchunk;
    AcceptedHasNoCr(c.line);
    var y := c.data + (CRLF + rest);
    assert y[..|c.data|] == c.data && y[|c.data| + 2..] == rest;
    FindLineEnd(c.line, y);
    UnchunkStep(c.line + (CRLF + y), |c.line|, |c.data|);
  }

  lemma UnchunkEnd(zero: string, tail: string)
    requires GoodEnd(zero)
    ensures Unchunk(zero + (CRLF + tail)) == Unchunked(Filename, "", tail)
  {
    hide At;
    AcceptedHasNoCr(zero);
    FindLineEnd(zero, tail);
  }

  lemma {:induction false} UnchunkFramed(chunks: seq<Chunk>, zero: string, tail: string)
    requires GoodChunks(chunks) && GoodEnd(zero)
    ensures Unchunk(Framed(chunks, zero + (CRLF + tail))) == Unchunked(Filename, Payload(chunks), tail)
  {
    if chunks == [] {
      UnchunkEnd(zero, tail);
    } else {
      var c, rest := chunks[0], Framed(chunks[1..], zero + (CRLF + tail));
      UnchunkFrame(c, rest);
      UnchunkFramed(chunks[1..], zero, tail);
    }
  }

  /** On every well-formed message of a new request: what unchunk_data writes from one buffer is what refactor_data
      collects from any allowed pieces, if and only if the field is spelled with one blank, as unchunk_data wants it. */
  lemma BothGivePayload(head: string, chunks: seq<Chunk>, zero: string, pieces: seq<string>, flag: bool)
    requires ChunkedHead(head) && GoodChunks(chunks) && GoodEnd(zero) && NewRequest(head + Wire(chunks, zero))
    requires AllowedPieces(pieces, head + Wire(chunks, zero)) && |head + Wire(chunks, zero)| < TWO_64 - 2
    ensures var whole := head + Wire(chunks, zero); var (u, _) := UnchunkCall(flag, whole);
        var p := DecodeAll(FRESH, pieces);
      && p.done && u.outcome == Filename
      && u.written == (if Contains(whole, "Transfer-Encoding: chunked") then p.out else Wire(chunks, zero))
      && (u.written == p.out <==> Contains(whole, "Transfer-Encoding: chunked"))
  {
    var whole := head + Wire(chunks, zero);
    FindExtend(head, Wire(chunks, zero), CRLF2, 0);
    assert whole[|head|..] == Wire(chunks, zero);
    hide Contains, Find, NewRequest, At;
    UnchunkFramed(chunks, zero, CRLF);
    DecodePieces(head, chunks, zero, pieces);
    WireIsLonger(chunks, zero + (CRLF + CRLF));
  }

  /** The flag of a call that has read headers decides what the next call does with a buffer that has none. */
  lemma FlagCarries(chunked: bool, s: string, next: string)
    requires NewRequest(s) && Contains(s, CRLF2) && !NewRequest(next)
    ensures UnchunkCall(UnchunkCall(chunked, s).1, next).0 ==
      if Contains(s, "Transfer-Encoding: chunked") then Unchunk(next) else Unchunked(Filename, next, "")
    ensures UnchunkCall(chunked, next).1 == chunked
  {
    hide Unchunk, NewRequest, At, Find;
  }

  /** Only the first line says whether there are headers. */
  lemma NewRequestMeans(line: string, rest: string)
    requires '\r' !in line
    ensures NewRequest(line + (CRLF + rest)) <==> Contains(line, "HTTP")
    ensures NewRequest(line) <==> Contains(line, "HTTP")
  {
    FindLineEnd(line, rest);
    NoLineEnd(line);
    hide At, Find;
    assert line[..|line|] == line;
  }

  /** Headers without their end: an error, and the flag stays. */
  lemma EndlessHeaders(chunked: bool, s: string)
    requires NewRequest(s) && !Contains(s, CRLF2)
    ensures UnchunkCall(chunked, s) == (Unchunked(Error400, "", s), chunked)
  {
    hide NewRequest, At, Find;
  }

  /** The chunks that are refused: with less behind the size line than it announces and a CRLF, or no size line at all;
      and the ones that read past the end: behind a size line that is rejected, with anything behind it. */
  lemma RefusedChunk(line: string, rest: string)
    requires '\r' !in line
    ensures var u := Unchunk(line + (CRLF + rest));
      && (Accepted(line) && 0 < Value(line) && |rest| < Value(line) + 2 < TWO_64 ==> u == Unchunked(Error400, "", rest))
      && (!Accepted(line) && 0 < |rest| < TWO_64 - 1 ==> u == Unchunked(OutOfBounds, "", rest))
      && (!Accepted(line) && rest == "" ==> u == Unchunked(Error400, "", ""))
    ensures line != "" ==> Unchunk(line) == Unchunked(Error400, "", line)
  {
    SizeOfLine(line);
    NoLineEnd(line);
    hide Value, At, HexToDec;
    RefusedSize(line, rest);
  }

  lemma SizeOfLine(line: string)
    ensures Accepted(line) && Value(line) < TWO_64 ==> ToSizeT(HexToDec(line)) == Value(line)
    ensures !Accepted(line) ==> ToSizeT(HexToDec(line)) == TWO_64 - 1
  {
    hide Value;
  }

  lemma RefusedSize(line: string, rest: string)
    requires '\r' !in line
    ensures var size := ToSizeT(HexToDec(line));
      size != 0 && |rest| < size + 2 ==>
        Unchunk(line + (CRLF + rest)) == Unchunked(if Want(size) > |rest| then Error400 else OutOfBounds, "", rest)
  {
    FindLineEnd(line, rest);
    hide HexToDec, At, Find, Want, ToSizeT;
    assert line + (CRLF + rest) != "";
  }
}

/** Chunked messages as section 4.1 of RFC 7230 frames them, and what the decoder makes of them. */
module ChunkedMessage {
  import opened Text
  import opened HexSize
  import opened ChunkDecoder

  /** A size line, as sent, and the data it announces. */
  datatype Chunk = Chunk(line: string, data: string)

  predicate GoodChunk(c: Chunk) {
    Accepted(c.line) && Value(c.line) == |c.data| && 0 < |c.data| < 0x8000_0000
  }

  predicate GoodChunks(chunks: seq<Chunk>) {
    forall i :: 0 <= i < |chunks| ==> GoodChunk(chunks[i])
  }

  predicate GoodEnd(zero: string) {
    Accepted(zero) && Value(zero) == 0
  }

  /** The framed chunks, then `rest`. */
  function Framed(chunks: seq<Chunk>, rest: string): string {
    if chunks == [] then rest
    else chunks[0].line + (CRLF + (chunks[0].data + (CRLF + Framed(chunks[1..], rest))))
  }

  function Wire(chunks: seq<Chunk>, zero: string): string {
    Framed(chunks, zero + (CRLF + CRLF))
  }

  /** The body the chunks carry. */
  function Payload(chunks: seq<Chunk>): string {
    if chunks == [] then "" else chunks[0].data + Payload(chunks[1..])
  }

  lemma FramedLength(chunks: seq<Chunk>, rest: string)
    ensures |Framed(chunks, rest)| == |Framed(chunks, "")| + |rest|
  {
  }

  lemma {:induction false} WireIsLonger(chunks: seq<Chunk>, rest: string)
    ensures |Framed(chunks, rest)| >= |Payload(chunks)| + |rest|
  {
    if chunks != [] {
      WireIsLonger(chunks[1..], rest);
    }
  }

  /** One whole frame at the front of the buffer is one turn of the loop. */
  lemma FrameStep(d: Decoder, c: Chunk, rest: string)
    requires d.readingSize && GoodChunk(c) && d.chunkBuffer == c.line + (CRLF + (c.data + (CRLF + rest)))
    ensures var d' := Decoder(d.headers, rest, |c.data|, true, d.complete);
      DecodeChunks(d) == Prepend(c.data, DecodeChunks(d')) && WrappedSteps(d) == WrappedSteps(d')
  {
    hide At, Accepted, Value, HexToDec;
    FrameLine(d, c.line, c.data + (CRLF + rest));
    var d1 := TakeLine(d);
    UnfoldLine(d);
    assert d1.chunkBuffer[..|c.data|] == c.data;
    assert d1.chunkBuffer[|c.data| + 2..] == rest;
    UnfoldData(d1);
  }

  lemma FrameLine(d: Decoder, line: string, rest: string)
    requires d.readingSize && Accepted(line) && 0 <= Value(line) < TWO_64 && d.chunkBuffer == line + (CRLF + rest)
    ensures Find(d.chunkBuffer, CRLF, 0) == Some(|line|)
    ensures TakeLine(d) == Decoder(d.headers, rest, Value(line), false, d.complete)
  {
    hide At, Find, Value;
    AcceptedHasNoCr(line);
    FindLineEnd(line, rest);
    LineParts(line, rest);
  }

  lemma LineParts(line: string, rest: string)
    ensures (line + (CRLF + rest))[..|line|] == line && (line + (CRLF + rest))[|line| + 2..] == rest
  {
  }

  lemma EndStep(d: Decoder, zero: string, tail: string)
    requires d.readingSize && GoodEnd(zero) && d.chunkBuffer == zero + (CRLF + tail)
    ensures DecodeChunks(d) == Progress(true, AfterLastSize(tail), Decoder("", "", 0, true, true))
  {
    AcceptedHasNoCr(zero);
    FindLineEnd(zero, tail);
  }

  /** The loop decodes every well-formed message; what stands behind the last size line matters as AfterLastSize
      says. */
  lemma {:induction false} DecodeFramed(d: Decoder, chunks: seq<Chunk>, zero: string, tail: string)
    requires d.readingSize && GoodChunks(chunks) && GoodEnd(zero)
    requires d.chunkBuffer == Framed(chunks, zero + (CRLF + tail))
    ensures DecodeChunks(d) == Progress(true, Payload(chunks) + AfterLastSize(tail), Decoder("", "", 0, true, true))
    decreases chunks
  {
    hide At;
    if chunks == [] {
      EndStep(d, zero, tail);
      assert "" + AfterLastSize(tail) == AfterLastSize(tail);
    } else {
      var c, rest := chunks[0], Framed(chunks[1..], zero + (CRLF + tail));
      assert GoodChunk(c) && d.chunkBuffer == c.line + (CRLF + (c.data + (CRLF + rest)));
      hide DecodeChunks, AfterLastSize, GoodChunk, GoodEnd, Framed;
      var d' := Decoder(d.headers, rest, |c.data|, true, d.complete);
      DecodeFramed(d', chunks[1..], zero, tail);
      hide GoodChunks;
      FrameStep(d, c, rest);
      Regroup(c.data, Payload(chunks[1..]), AfterLastSize(tail));
    }
  }

  lemma Regroup(a: string, b: string, c: string)
    ensures a + (b + c) == a + b + c
  {
  }

  /** What has arrived is short of the line feed that ends the last size line. */
  predicate Short(x: string, chunks: seq<Chunk>, zero: string) {
    x <= Framed(chunks, zero + CRLF) && |x| < |Framed(chunks, zero + CRLF)|
  }

  lemma ShortLine(line: string, rest: string, x: string)
    requires '\r' !in line && x <= line + (CRLF + rest) && |x| <= |line| + 1
    ensures Find(x, CRLF, 0).None?
  {
    forall i | 0 <= i < |x| && i < |line| ensures x[i] != '\r' {
      assert x[i] == (line + (CRLF + rest))[i] == line[i];
    }
    NoLineEnd(x);
  }

  /** x begins with a whole line, or even with a whole frame, of the string it is a prefix of. */
  lemma CutPrefix(front: string, rest: string, x: string) returns (y: string)
    requires x <= front + rest && |front| <= |x|
    ensures x == front + y && y <= rest
  {
    y := x[|front|..];
    assert (front + rest)[..|x|] == front + rest[..|y|];
  }

  lemma {:induction false} ShortWaits(d: Decoder, chunks: seq<Chunk>, zero: string)
    requires d.readingSize && GoodChunks(chunks) && GoodEnd(zero) && Short(d.chunkBuffer, chunks, zero)
    ensures !DecodeChunks(d).done && WrappedSteps(d) == 0
    decreases chunks
  {
    var x := d.chunkBuffer;
    if chunks == [] {
      AcceptedHasNoCr(zero);
      assert zero + CRLF == zero + (CRLF + "");
      ShortLine(zero, "", x);
    } else {
      var c, rest := chunks[0], Framed(chunks[1..], zero + CRLF);
      AcceptedHasNoCr(c.line);
      if |x| <= |c.line| + 1 {
        ShortLine(c.line, c.data + (CRLF + rest), x);
      } else {
        assert c.line + (CRLF + (c.data + (CRLF + rest))) == (c.line + CRLF) + (c.data + (CRLF + rest));
        var y := CutPrefix(c.line + CRLF, c.data + (CRLF + rest), x);
        assert x == c.line + (CRLF + y);
        if |y| < |c.data| + 2 {
          ShortData(d, c, y);
        } else {
          assert c.data + (CRLF + rest) == (c.data + CRLF) + rest;
          var x' := CutPrefix(c.data + CRLF, rest, y);
          assert y == c.data + (CRLF + x');
          FrameStep(d, c, x');
          ShortWaits(Decoder(d.headers, x', |c.data|, true, d.complete), chunks[1..], zero);
        }
      }
    }
  }

  lemma ShortData(d: Decoder, c: Chunk, y: string)
    requires d.readingSize && GoodChunk(c) && d.chunkBuffer == c.line + (CRLF + y) && |y| < |c.data| + 2
    ensures !DecodeChunks(d).done && WrappedSteps(d) == 0
  {
    hide At;
    AcceptedHasNoCr(c.line);
    FindLineEnd(c.line, y);
    assert TakeLine(d) == Decoder(d.headers, y, |c.data|, false, d.complete);
    UnfoldLine(d);
  }

  /** The decoder, fresh, waits for more than x and has met no rejected size line with bytes behind it. */
  predicate Waits(x: string) {
    !Decode(FRESH, 0, x).done && WrappedIn(FRESH, x) == 0
  }

  /** Headers that end at their first blank line and announce chunks in the spelling refactor_data looks for. */
  predicate ChunkedHead(head: string) {
    Find(head, CRLF2, 0) == Some(|head| - 4) && SaysChunked(head)
  }

  lemma SaysChunkedIf(front: string, middle: string, back: string)
    ensures SaysChunked(front + ("Transfer-Encoding" + (middle + ("chunked" + back))))
  {
    var name, value := "Transfer-Encoding", "chunked";
    ContainsMiddle(front, name, middle + (value + back));
    ContainsMiddle(front + (name + middle), value, back);
    assert front + (name + (middle + (value + back))) == front + (name + middle) + (value + back);
  }

  /** The spelling: both words, anywhere, in these letters. */
  lemma SpellingMeans(head: string)
    ensures SaysChunked(head) <==>
      (exists i: nat :: At(head, "Transfer-Encoding", i)) && (exists i: nat :: At(head, "chunked", i))
  {
    hide At;
  }

  lemma HeadTaken(head: string, rest: string)
    requires Find(head, CRLF2, 0) == Some(|head| - 4)
    ensures Receive(FRESH, head + rest) == Decoder(head, rest, 0, true, false)
  {
    hide At;
    FindExtend(head, rest, CRLF2, 0);
    hide Find;
    HeadParts(head, rest);
    assert Append(FRESH, head + rest) == FRESH.(chunkBuffer := head + rest);
  }

  lemma HeadParts(head: string, rest: string)
    ensures (head + rest)[..|head|] == head && (head + rest)[|head|..] == rest && "" + (head + rest) == head + rest
  {
  }

  /** Behind headers in any other spelling the decoder hands everything through as it came, and is done at once. */
  lemma DecodeUnspelled(head: string, y: string, n: nat)
    requires Find(head, CRLF2, 0) == Some(|head| - 4) && !SaysChunked(head)
    ensures Decode(FRESH, n, head + y).done && Decode(FRESH, n, head + y).out == y
  {
    HeadTaken(head, y);
    hide SaysChunked, HasWholeBody;
  }

  /** The call behind that one: with the whole announced body in hand the decoder has started anew, otherwise it goes on
      handing everything through. */
  lemma UnspelledNext(head: string, y: string, n: nat, data: string, m: nat)
    requires Find(head, CRLF2, 0) == Some(|head| - 4) && !SaysChunked(head)
    ensures var d := Decode(FRESH, n, head + y).decoder;
      if HasWholeBody(head, n + |y|) then d == FRESH
      else Decode(d, m, data).done && Decode(d, m, data).out == data
  {
    HeadTaken(head, y);
    hide SaysChunked, HasWholeBody, At, Find, Receive, DecodeChunks;
    var d := Decode(FRESH, n, head + y).decoder;
    if !HasWholeBody(head, n + |y|) {
      assert d.headers == head && d.chunkBuffer == "";
      hide Decode;
      HandsThrough(d, m, data);
    }
  }

  lemma HandsThrough(d: Decoder, m: nat, data: string)
    requires d.headers != "" && d.chunkBuffer == "" && !SaysChunked(d.headers)
    ensures Decode(d, m, data).done && Decode(d, m, data).out == data
  {
    assert "" + data == data;
    hide SaysChunked, HasWholeBody, DecodeChunks, Find;
  }

  lemma HeadWaits(head: string, x: string)
    requires ChunkedHead(head) && x <= head && |x| < |head|
    ensures Waits(x)
  {
    var y := head[|x|..];
    assert head == x + y;
    assert Append(FRESH, x).chunkBuffer == x;
    if Find(x, CRLF2, 0).Some? {
      FindExtend(x, y, CRLF2, 0);
    }
  }

  /** A whole message in one piece. */
  lemma DecodeMessage(head: string, chunks: seq<Chunk>, zero: string, tail: string, n: nat)
    requires ChunkedHead(head) && GoodChunks(chunks) && GoodEnd(zero)
    ensures Decode(FRESH, n, head + Framed(chunks, zero + (CRLF + tail)))
            == Progress(true, Payload(chunks) + AfterLastSize(tail), Decoder("", "", 0, true, true))
  {
    var rest := Framed(chunks, zero + (CRLF + tail));
    HeadTaken(head, rest);
    DecodeFramed(Decoder(head, rest, 0, true, false), chunks, zero, tail);
  }

  /** The body is exactly the payload when nothing, or nothing but one line, stands behind the last size line. */
  lemma TailDropped(tail: string)
    ensures AfterLastSize(tail) == "" <==> tail == "" || Find(tail, CRLF, 0) == Some(|tail| - 2)
  {
    hide At;
  }

  /** No proper prefix that stops before the last size line is complete makes the decoder answer true. */
  lemma MessageWaits(head: string, chunks: seq<Chunk>, zero: string, x: string)
    requires ChunkedHead(head) && GoodChunks(chunks) && GoodEnd(zero)
    requires x <= head + Framed(chunks, zero + CRLF) && |x| < |head + Framed(chunks, zero + CRLF)|
    ensures Waits(x)
  {
    if |x| < |head| {
      assert x == (head + Framed(chunks, zero + CRLF))[..|x|] == head[..|x|];
      HeadWaits(head, x);
    } else {
      var y := CutPrefix(head, Framed(chunks, zero + CRLF), x);
      HeadTaken(head, y);
      ShortWaits(Decoder(head, y, 0, true, false), chunks, zero);
    }
  }

  /** The calls that feed a stream piece by piece; `out` is what the caller's buffer then holds. */
  function DecodeAll(d: Decoder, pieces: seq<string>): Progress {
    if pieces == [] then Progress(false, "", d)
    else
      var before := DecodeAll(d, pieces[..|pieces| - 1]);
      Prepend(before.out, Decode(before.decoder, |before.out|, pieces[|pieces| - 1]))
  }

  lemma PieceJoins(first: string, last: string)
    requires Waits(first) && |first| + |last| < TWO_64 - 2
    ensures var p := Decode(FRESH, 0, first);
      Prepend(p.out, Decode(p.decoder, |p.out|, last)) == Decode(FRESH, 0, first + last)
  {
    DecodeSplit(FRESH, 0, first, last);
    var p := Decode(FRESH, 0, first);
    JoinsExactly(p, Decode(p.decoder, |p.out|, last), Decode(FRESH, 0, first + last), |last|);
  }

  /** As long as the decoder only waits, feeding pieces is feeding their concatenation. */
  lemma {:induction false} PiecesAreOne(pieces: seq<string>)
    requires pieces != [] && |Flatten(pieces)| < TWO_64 - 2
    requires forall n :: 0 < n < |pieces| ==> Waits(Flatten(pieces[..n]))
    ensures DecodeAll(FRESH, pieces) == Decode(FRESH, 0, Flatten(pieces))
  {
    var k := |pieces| - 1;
    var init, last := pieces[..k], pieces[k];
    FlattenLast(pieces);
    if k == 0 {
      assert Flatten(pieces) == last;
      assert "" + Decode(FRESH, 0, last).out == Decode(FRESH, 0, last).out;
    } else {
      forall n | 0 < n < k ensures Waits(Flatten(init[..n])) {
        assert init[..n] == pieces[..n];
      }
      PiecesAreOne(init);
      PieceJoins(Flatten(init), last);
    }
  }

  /** A cutting of a whole message whose last piece holds the last size line's line feed and the final CRLF. */
  predicate AllowedPieces(pieces: seq<string>, message: string) {
    && pieces != [] && Flatten(pieces) == message && |pieces[|pieces| - 1]| >= 3
  }

  lemma AllowedPiecesWait(head: string, chunks: seq<Chunk>, zero: string, pieces: seq<string>, n: nat)
    requires ChunkedHead(head) && GoodChunks(chunks) && GoodEnd(zero)
    requires AllowedPieces(pieces, head + Wire(chunks, zero)) && n < |pieces|
    ensures Waits(Flatten(pieces[..n]))
  {
    FlattenPrefix(pieces, n);
    var x := Flatten(pieces[..n]);
    var short := Framed(chunks, zero + CRLF);
    FramedLength(chunks, zero + CRLF);
    FramedLength(chunks, zero + (CRLF + CRLF));
    FramedExtends(chunks, zero + CRLF, CRLF);
    assert zero + CRLF + CRLF == zero + (CRLF + CRLF);
    assert head + (short + CRLF) == head + short + CRLF;
    MessageWaits(head, chunks, zero, x);
  }

  lemma FramedExtends(chunks: seq<Chunk>, rest: string, more: string)
    ensures Framed(chunks, rest + more) == Framed(chunks, rest) + more
  {
  }

  /** Section 4.1 of RFC 7230 undone: fed in any allowed pieces, the decoder answers false until the last piece, then
      true, and the caller's buffer then holds exactly the payload. */
  lemma DecodePieces(head: string, chunks: seq<Chunk>, zero: string, pieces: seq<string>)
    requires ChunkedHead(head) && GoodChunks(chunks) && GoodEnd(zero)
    requires AllowedPieces(pieces, head + Wire(chunks, zero)) && |head + Wire(chunks, zero)| < TWO_64 - 2
    ensures forall n :: 0 <= n < |pieces| ==> !DecodeAll(FRESH, pieces[..n]).done
    ensures DecodeAll(FRESH, pieces) == Progress(true, Payload(chunks), Decoder("", "", 0, true, true))
  {
    forall n | 0 <= n < |pieces| ensures Waits(Flatten(pieces[..n])) {
      AllowedPiecesWait(head, chunks, zero, pieces, n);
    }
    forall n | 0 < n < |pieces| ensures !DecodeAll(FRESH, pieces[..n]).done {
      FlattenPrefix(pieces, n);
      forall m | 0 < m < n ensures Waits(Flatten(pieces[..n][..m])) {
        assert pieces[..n][..m] == pieces[..m];
      }
      PiecesAreOne(pieces[..n]);
    }
    PiecesAreOne(pieces);
    DecodeMessage(head, chunks, zero, CRLF, 0);
    assert Find(CRLF, CRLF, 0) == Some(0) by {
      AtCrlf(CRLF, 0);
    }
    TailDropped(CRLF);
  }

  /** The first n pieces that together reach a length. */
  lemma {:induction false} FirstToReach(pieces: seq<string>, k: nat, length: nat) returns (m: nat)
    requires k <= |pieces| && length <= |Flatten(pieces[..k])|
    ensures m <= k && length <= |Flatten(pieces[..m])| && forall n :: 0 <= n < m ==> |Flatten(pieces[..n])| < length
  {
    m := k;
    if k > 0 && length <= |Flatten(pieces[..k - 1])| {
      m := FirstToReach(pieces, k - 1, length);
    } else {
      forall n | 0 <= n < m ensures |Flatten(pieces[..n])| < length {
        assert pieces[..k - 1][..n] == pieces[..n];
        FlattenPrefix(pieces[..k - 1], n);
      }
    }
  }

  /** The message up to the end of the last size line. */
  function UpToLastLine(head: string, chunks: seq<Chunk>, zero: string): string {
    head + Framed(chunks, zero + CRLF)
  }

  lemma WireBehindLastLine(head: string, chunks: seq<Chunk>, zero: string)
    ensures head + Wire(chunks, zero) == UpToLastLine(head, chunks, zero) + CRLF
  {
    FramedExtends(chunks, zero + CRLF, CRLF);
    assert zero + CRLF + CRLF == zero + (CRLF + CRLF);
    assert head + (Framed(chunks, zero + CRLF) + CRLF) == head + Framed(chunks, zero + CRLF) + CRLF;
  }

  /** Once that has arrived the decoder is done, whatever part of the final CRLF is there. */
  lemma DoneBehindLastLine(head: string, chunks: seq<Chunk>, zero: string, x: string)
    requires ChunkedHead(head) && GoodChunks(chunks) && GoodEnd(zero)
    requires x <= head + Wire(chunks, zero) && |UpToLastLine(head, chunks, zero)| <= |x|
    ensures Decode(FRESH, 0, x).done
  {
    WireBehindLastLine(head, chunks, zero);
    var tail := CutPrefix(UpToLastLine(head, chunks, zero), CRLF, x);
    FramedExtends(chunks, zero + CRLF, tail);
    assert zero + CRLF + tail == zero + (CRLF + tail);
    assert head + Framed(chunks, zero + CRLF) + tail == head + (Framed(chunks, zero + CRLF) + tail);
    DecodeMessage(head, chunks, zero, tail, 0);
  }

  /** Of all the cuttings of a message exactly these make the decoder wait until the last piece. */
  lemma WaitsUntilLast(head: string, chunks: seq<Chunk>, zero: string, pieces: seq<string>)
    requires ChunkedHead(head) && GoodChunks(chunks) && GoodEnd(zero)
    requires pieces != [] && Flatten(pieces) == head + Wire(chunks, zero) && |head + Wire(chunks, zero)| < TWO_64 - 2
    ensures (forall n :: 0 <= n < |pieces| ==> !DecodeAll(FRESH, pieces[..n]).done) <==> |pieces[|pieces| - 1]| >= 3
  {
    if |pieces[|pieces| - 1]| >= 3 {
      DecodePieces(head, chunks, zero, pieces);
    } else {
      FlattenLast(pieces);
      WireBehindLastLine(head, chunks, zero);
      var k := |pieces| - 1;
      var m := FirstToReach(pieces, k, |UpToLastLine(head, chunks, zero)|);
      FlattenPrefix(pieces, m);
      DoneBehindLastLine(head, chunks, zero, Flatten(pieces[..m]));
      DoneAt(head, chunks, zero, pieces, m);
    }
  }

  lemma DoneAt(head: string, chunks: seq<Chunk>, zero: string, pieces: seq<string>, m: nat)
    requires ChunkedHead(head) && GoodChunks(chunks) && GoodEnd(zero)
    requires m <= |pieces| && Flatten(pieces) == head + Wire(chunks, zero) && |Flatten(pieces)| < TWO_64 - 2
    requires Decode(FRESH, 0, Flatten(pieces[..m])).done
    requires forall n :: 0 <= n < m ==> |Flatten(pieces[..n])| < |UpToLastLine(head, chunks, zero)|
    ensures DecodeAll(FRESH, pieces[..m]).done
  {
    hide Decode, Waits, ChunkedHead, GoodEnd, Framed, Wire;
    forall n | 0 < n < m ensures Waits(Flatten(pieces[..m][..n])) {
      assert pieces[..m][..n] == pieces[..n];
      FlattenPrefix(pieces, n);
      PrefixOfLine(head, chunks, zero, Flatten(pieces[..n]));
    }
    FlattenPrefix(pieces, m);
    NothingIsNotDone();
    assert pieces[..0] == [];
    PiecesAreOne(pieces[..m]);
  }

  lemma PrefixOfLine(head: string, chunks: seq<Chunk>, zero: string, x: string)
    requires ChunkedHead(head) && GoodChunks(chunks) && GoodEnd(zero)
    requires x <= head + Wire(chunks, zero) && |x| < |UpToLastLine(head, chunks, zero)|
    ensures Waits(x)
  {
    WireBehindLastLine(head, chunks, zero);
    assert x == (head + Wire(chunks, zero))[..|x|] == UpToLastLine(head, chunks, zero)[..|x|];
    MessageWaits(head, chunks, zero, x);
  }

  lemma NothingIsNotDone()
    ensures !Decode(FRESH, 0, "").done
  {
    assert Append(FRESH, "").chunkBuffer == "";
  }
}

/** Two ways to frame a body, section 3.3.3 of RFC 7230: the parser makes the same body of both. */
module Framing {
  import opened Text
  import opened Checks
  import opened ChunkDecoder
  import opened ChunkedMessage
  import opened Parser
  import opened SplitIndependence

  /** A start line that is accepted, and a header block up to its blank line. */
  predicate AtHead(head: string) {
    var crlf := Find(head, CRLF, 0);
    && |head| <= MAX_BUFFER
    && crlf.Some? && Find(head, CRLF2, crlf.value + 2) == Some(|head| - 4)
    && CheckLine(head[..crlf.value]).GoodLine?
  }

  function LineOf(head: string): RequestLine
    requires AtHead(head)
  {
    CheckLine(head[..Find(head, CRLF, 0).value]).line
  }

  /** What parse_headers says to the block. */
  function HeadCheck(head: string): Check
    requires AtHead(head)
  {
    CheckBlock(FRESH_FIELDS, head[Find(head, CRLF, 0).value + 2..|head| - 4])
  }

  /** A request's start line and headers, and the parser they lead to: it stands behind them and wants a body. */
  predicate AtBody(head: string, p: Parser) {
    && AtHead(head) && LineOf(head).verb == "POST" && HeadCheck(head).ok
    && p == Parser(Body, Some(LineOf(head)), HeadCheck(head).fields, head, |head|, "", 0, "", FRESH)
  }

  lemma BodyBehindHead(head: string, p: Parser)
    requires AtBody(head, p)
    ensures AtHead(head)
  {
    hide AtHead, HeadCheck;
  }

  predicate Sized(p: Parser) {
    !p.fields.transferEncodingExists && p.fields.contentLengthExists
  }

  predicate Chunked(p: Parser) {
    p.fields.transferEncodingExists
  }

  lemma StartTurn(p: Parser, n: nat, line: RequestLine)
    requires Valid(p) && p.phase.StartLine? && Find(p.buffer, CRLF, p.pos) == Some(n)
    requires CheckLine(p.buffer[p.pos..n]) == GoodLine(line)
    ensures Turn(p) == Outcome(true, p.(pos := n + 2, startLine := Some(line), phase := HeaderBlock))
  {
    hide CheckLine, At, Find;
  }

  lemma HeaderTurn(p: Parser, n: nat, f: Fields)
    requires Valid(p) && p.phase.HeaderBlock? && p.startLine.value.verb == "POST"
        && Find(p.buffer, CRLF2, p.pos) == Some(n)
    requires CheckBlock(p.fields, p.buffer[p.pos..n]) == Check(true, f)
    ensures Turn(p) == Outcome(true, p.(pos := n + 4, fields := f, phase := Body))
  {
    hide CheckBlock, At, Find;
  }

  /** The parser behind the start line, with `rest` behind the head. */
  function BehindLine(head: string, p: Parser, rest: string): Parser
    requires AtBody(head, p)
  {
    FRESH_PARSER.(phase := HeaderBlock, startLine := p.startLine, buffer := head + rest,
        pos := Find(head, CRLF, 0).value + 2)
  }

  /** The two turns of the head, whatever stands behind it. */
  lemma HeadTurns(head: string, p: Parser, rest: string)
    requires AtBody(head, p) && |head| + |rest| <= MAX_BUFFER
    ensures var p0 := FRESH_PARSER.(buffer := head + rest);
      && Valid(p0) && Turn(p0) == Outcome(true, BehindLine(head, p, rest))
      && Valid(BehindLine(head, p, rest)) && Turn(BehindLine(head, p, rest)) == Outcome(true, Appended(p, rest))
      && Valid(Appended(p, rest))
  {
    hide CheckLine, CheckBlock, At, Turn;
    var n := Find(head, CRLF, 0).value;
    FindExtend(head, rest, CRLF, 0);
    FindExtend(head, rest, CRLF2, n + 2);
    assert (head + rest)[..n] == head[..n];
    assert (head + rest)[n + 2..|head| - 4] == head[n + 2..|head| - 4];
    StartTurn(FRESH_PARSER.(buffer := head + rest), n, p.startLine.value);
    HeaderTurn(BehindLine(head, p, rest), |head| - 4, p.fields);
  }

  /** Two finished turns of the loop. */
  lemma TwoSteps(p0: Parser, p1: Parser, p2: Parser)
    requires Valid(p0) && Rank(p0.phase) > 1 && Turn(p0) == Outcome(true, p1)
    requires Valid(p1) && Rank(p1.phase) > 1 && Turn(p1) == Outcome(true, p2)
    ensures Valid(p2) && Drive(p0) == Drive(p2) && WrappedTurns(p0) == WrappedTurns(p2)
  {
    hide Turn, Drive, WrappedTurns;
    DriveStep(p0, p1);
    DriveStep(p1, p2);
  }

  lemma FedFresh(x: string)
    requires |x| <= MAX_BUFFER
    ensures var p0 := FRESH_PARSER.(buffer := x);
      Valid(p0) && Feed(FRESH_PARSER, x) == Drive(p0) && WrappedInFeed(FRESH_PARSER, x) == WrappedTurns(p0)
  {
    hide Drive, WrappedTurns;
    assert Appended(FRESH_PARSER, x) == FRESH_PARSER.(buffer := x);
  }

  /** The rest of the stream is driven from there. */
  lemma FeedBehindHead(head: string, p: Parser, rest: string)
    requires AtBody(head, p) && |head| + |rest| <= MAX_BUFFER
    ensures Valid(Appended(p, rest)) && Feed(FRESH_PARSER, head + rest) == Drive(Appended(p, rest))
    ensures WrappedInFeed(FRESH_PARSER, head + rest) == WrappedTurns(Appended(p, rest))
  {
    HeadTurns(head, p, rest);
    hide Turn, AtBody, Drive, WrappedTurns, Feed, WrappedInFeed, Valid;
    FedFresh(head + rest);
    TwoSteps(FRESH_PARSER.(buffer := head + rest), BehindLine(head, p, rest), Appended(p, rest));
  }

  /** A fresh parser, given everything in one piece. */
  function AtOnce(x: string): (Verdict, Parser) {
    Feed(FRESH_PARSER, x)
  }

  lemma SizedTurn(head: string, p: Parser, part: string)
    requires AtBody(head, p) && Sized(p) && |head| + |part| <= MAX_BUFFER && |part| <= p.fields.expected
    ensures var p' := Appended(p, part);
      && Valid(p') && !Decoding(p')
      && Turn(p') == if |part| < p.fields.expected then Outcome(false, p')
                     else Outcome(true, p'.(phase := Complete, body := part, pos := |head| + |part|))
  {
    hide CheckLine, CheckBlock, At;
    var p' := Appended(p, part);
    if |part| == p.fields.expected {
      assert p'.buffer[p.pos..p.pos + |part|] == part;
    }
  }

  lemma SizedWhole(head: string, p: Parser, body: string)
    requires AtBody(head, p) && Sized(p) && p.fields.expected == |body| && |head| + |body| <= MAX_BUFFER
    ensures var (v, q) := Feed(FRESH_PARSER, head + body);
      v.Ok? && q == Appended(p, body).(phase := Complete, body := body, pos := |head| + |body|)
  {
    SizedTurn(head, p, body);
    FeedBehindHead(head, p, body);
    hide AtBody, Turn;
  }

  lemma SizedWaits(head: string, p: Parser, part: string)
    requires AtBody(head, p) && Sized(p) && |part| < p.fields.expected && |head| + |part| <= MAX_BUFFER
    ensures AsksForMore(FRESH_PARSER, head + part)
  {
    SizedTurn(head, p, part);
    FeedBehindHead(head, p, part);
    assert p.phase.Body?;
    hide AtBody, Turn, Feed, WrappedInFeed;
  }

  /** A cut that does not make the parser refuse the head for its size: behind it, in the start line, or with at most
      8 KiB in the buffer. */
  predicate CutFits(head: string, x: string) {
    |head| <= |x| || |x| <= MAX_HEADER || Find(x, CRLF, 0).None?
  }

  predicate CutsFit(head: string, pieces: seq<string>) {
    forall n :: 0 < n <= |pieces| ==> CutFits(head, Flatten(pieces[..n]))
  }

  /** A cut inside the head. */
  lemma HeadWaits(head: string, x: string)
    requires AtHead(head) && CutFits(head, x) && x <= head && |x| < |head|
    ensures AsksForMore(FRESH_PARSER, x)
  {
    hide CheckLine, CheckBlock, At;
    var y, n := head[|x|..], Find(head, CRLF, 0).value;
    assert head == x + y;
    var p0 := Appended(FRESH_PARSER, x);
    assert p0.buffer == x;
    if Find(x, CRLF, 0).Some? {
      FindExtend(x, y, CRLF, 0);
      assert x[..n] == head[..n];
      StartTurn(p0, n, LineOf(head));
      var p1 := Turn(p0).parser;
      if Find(x, CRLF2, n + 2).Some? {
        FindExtend(x, y, CRLF2, n + 2);
      }
      HeaderWaits(p1);
      DriveStep(p0, p1);
      DriveWaits(p1);
    } else {
      StartWaits(p0);
      DriveWaits(p0);
    }
  }

  lemma StartWaits(p: Parser)
    requires Valid(p) && p.phase.StartLine? && Find(p.buffer, CRLF, p.pos).None?
    ensures Turn(p) == Outcome(false, p)
  {
    hide CheckLine, At;
  }

  lemma HeaderWaits(p: Parser)
    requires Valid(p) && p.phase.HeaderBlock? && Find(p.buffer, CRLF2, p.pos).None? && |p.buffer| <= MAX_HEADER
    ensures Turn(p) == Outcome(false, p)
  {
    hide CheckBlock, At;
  }

  predicate FailedWith(r: (Verdict, Parser), code: int) {
    r.0.Failed? && r.1.phase.Error? && r.1.fields.errorCode == code
  }

  lemma HeaderTooLarge(p: Parser)
    requires Valid(p) && p.phase.HeaderBlock? && Find(p.buffer, CRLF2, p.pos).None? && |p.buffer| > MAX_HEADER
    ensures FailedWith(Drive(p), 431) && Drive(p).1.buffer == "" && !Drive(p).1.fields.keepAlive
  {
    hide CheckBlock, At, Find;
    TurnValid(p);
  }

  /** Any other cut inside the head draws error 431. */
  lemma HeadTooLong(head: string, x: string)
    requires AtHead(head) && !CutFits(head, x) && x <= head
    ensures FailedWith(Feed(FRESH_PARSER, x), 431)
    ensures Feed(FRESH_PARSER, x).1.buffer == "" && !Feed(FRESH_PARSER, x).1.fields.keepAlive
  {
    hide CheckLine, CheckBlock, At, Drive;
    var y, n := head[|x|..], Find(head, CRLF, 0).value;
    assert head == x + y;
    var p0 := Appended(FRESH_PARSER, x);
    assert p0.buffer == x;
    FindExtend(x, y, CRLF, 0);
    assert x[..n] == head[..n];
    StartTurn(p0, n, LineOf(head));
    var p1 := Turn(p0).parser;
    if Find(x, CRLF2, n + 2).Some? {
      FindExtend(x, y, CRLF2, n + 2);
    }
    DriveStep(p0, p1);
    HeaderTooLarge(p1);
  }

  lemma SizedPrefixWaits(head: string, p: Parser, body: string, x: string)
    requires AtBody(head, p) && Sized(p) && p.fields.expected == |body|
    requires CutFits(head, x) && |head| + |body| <= MAX_BUFFER
    requires x <= head + body && |x| < |head + body|
    ensures AsksForMore(FRESH_PARSER, x)
  {
    hide AtBody, AsksForMore;
    if |x| < |head| {
      assert x == (head + body)[..|x|] == head[..|x|];
      BodyBehindHead(head, p);
      HeadWaits(head, x);
    } else {
      var part := CutPrefix(head, body, x);
      SizedWaits(head, p, part);
    }
  }

  /** The decoder cuts the headers off where the parser's cursor stands exactly when the first header line is not
      empty. */
  lemma HeadCutsCoincide(head: string, p: Parser)
    requires AtBody(head, p)
    ensures var crlf := Find(head, CRLF, 0);
      crlf.Some? && (Find(head, CRLF2, 0) == Some(p.pos - 4) <==> !At(head, CRLF, crlf.value + 2))
  {
    hide CheckLine, CheckBlock, At;
    var n := Find(head, CRLF, 0).value;
    AtCrlf(head, n);
    AtCrlf(head, n + 2);
    AtCrlf2(head, n);
    AtCrlf2(head, n + 1);
    forall j | 0 <= j < n ensures !At(head, CRLF2, j) {
      AtCrlf(head, j);
      AtCrlf2(head, j);
    }
    if !At(head, CRLF, n + 2) {
      FindIs(head, CRLF2, 0, |head| - 4);
    } else {
      FindIs(head, CRLF2, 0, n);
    }
  }

  lemma ChunkedDrive(head: string, p: Parser, w: string)
    requires AtBody(head, p) && Chunked(p) && |head| + |w| <= MAX_BUFFER
    ensures var p' := Appended(p, w);
      && Valid(p') && Decoding(p')
      && ParseChunked(p') == Absorb(p', Decode(FRESH, 0, head + w))
      && WrappedTurns(p') == WrappedIn(FRESH, head + w)
  {
    hide CheckLine, CheckBlock, At, Decode, WrappedIn;
    var p' := Appended(p, w);
    assert p'.buffer[0..] == head + w;
    assert Valid(p') && Decoding(p');
    DriveBody(p');
    TurnValid(p');
  }

  lemma ChunkedWhole(head: string, p: Parser, chunks: seq<Chunk>, zero: string)
    requires AtBody(head, p) && Chunked(p) && ChunkedHead(head) && GoodChunks(chunks) && GoodEnd(zero)
    requires |head| + |Wire(chunks, zero)| <= MAX_BUFFER
    ensures var (v, q) := Feed(FRESH_PARSER, head + Wire(chunks, zero));
      v.Ok? && q.body == Payload(chunks) && q.pos == |q.buffer|
  {
    var w := Wire(chunks, zero);
    FramedLength(chunks, zero + (CRLF + CRLF));
    FeedBehindHead(head, p, w);
    ChunkedDrive(head, p, w);
    DecodeMessage(head, chunks, zero, CRLF, 0);
    assert Find(CRLF, CRLF, 0) == Some(0) by {
      AtCrlf(CRLF, 0);
    }
    TailDropped(CRLF);
    DriveBody(Appended(p, w));
    assert "" + (Payload(chunks) + "") == Payload(chunks);
  }

  lemma ChunkedWaits(head: string, p: Parser, y: string)
    requires AtBody(head, p) && Chunked(p) && SaysChunked(head) && |head| + |y| <= MAX_BUFFER && Waits(head + y)
    ensures AsksForMore(FRESH_PARSER, head + y)
  {
    FeedBehindHead(head, p, y);
    ChunkedDrive(head, p, y);
    DriveBody(Appended(p, y));
    hide AtBody, Decode, WrappedIn, Drive, Feed;
  }

  lemma ChunkedPrefixWaits(head: string, p: Parser, w: string, x: string)
    requires AtBody(head, p) && Chunked(p) && SaysChunked(head) && CutFits(head, x) && |head| + |w| <= MAX_BUFFER
    requires x <= head + w && Waits(x)
    ensures AsksForMore(FRESH_PARSER, x)
  {
    hide AtBody, AsksForMore, Waits;
    if |x| < |head| {
      assert x == (head + w)[..|x|] == head[..|x|];
      BodyBehindHead(head, p);
      HeadWaits(head, x);
    } else {
      var y := CutPrefix(head, w, x);
      ChunkedWaits(head, p, y);
    }
  }

  /** A fresh parser, given the pieces one by one. */
  function Deliver(pieces: seq<string>): (Verdict, Parser) {
    FeedPieces(FRESH_PARSER, pieces)
  }

  /** The head announces the body's length; head and body come in any pieces whose last is not empty. */
  predicate SentSized(head: string, p: Parser, body: string, pieces: seq<string>) {
    && AtBody(head, p) && Sized(p) && p.fields.expected == |body| && |head| + |body| <= MAX_BUFFER
    && pieces != [] && Flatten(pieces) == head + body && pieces[|pieces| - 1] != ""
  }

  /** The head announces chunks, in any spelling, with a first header line that is not empty; head and chunks come in
      any pieces whose last holds the final CRLF and the line feed before it. */
  predicate SentChunked(head: string, p: Parser, chunks: seq<Chunk>, zero: string, pieces: seq<string>) {
    && AtChunks(head, p) && |head| + |Wire(chunks, zero)| <= MAX_BUFFER
    && GoodChunks(chunks) && GoodEnd(zero) && AllowedPieces(pieces, head + Wire(chunks, zero))
  }

  /** The parser wants chunks, and both it and the decoder see the headers end where they end. */
  predicate AtChunks(head: string, p: Parser) {
    var crlf := Find(head, CRLF, 0);
    AtBody(head, p) && Chunked(p) && crlf.Some? && !At(head, CRLF, crlf.value + 2)
  }

  /** The first cut that does not fit. */
  lemma {:induction false} FirstBadCut(head: string, pieces: seq<string>, k: nat) returns (n: nat)
    requires 0 < k <= |pieces| && !CutFits(head, Flatten(pieces[..k]))
    ensures 0 < n <= k && !CutFits(head, Flatten(pieces[..n]))
    ensures forall m :: 0 < m < n ==> CutFits(head, Flatten(pieces[..m]))
  {
    if m :| 0 < m < k && !CutFits(head, Flatten(pieces[..m])) {
      n := FirstBadCut(head, pieces, m);
    } else {
      n := k;
    }
  }

  /** A parser that has failed stays so, with its code, while the buffer is not full. */
  lemma FailedStays(p: Parser, data: string)
    requires Valid(p) && p.phase.Error? && |p.buffer| + |data| <= MAX_BUFFER
    ensures Feed(p, data) == (Failed, Appended(p, data))
  {
  }

  /** What Deliver leaves is bounded by what it was given. */
  lemma {:induction false} DeliverSize(pieces: seq<string>)
    ensures |Deliver(pieces).1.buffer| <= |Flatten(pieces)|
    decreases |pieces|
  {
    if pieces != [] {
      var k := |pieces| - 1;
      FlattenLast(pieces);
      DeliverSize(pieces[..k]);
      FeedSize(Deliver(pieces[..k]).1, pieces[k]);
      hide Feed;
    }
  }

  lemma FeedSize(p: Parser, data: string)
    requires Valid(p)
    ensures |Feed(p, data).1.buffer| <= |p.buffer| + |data|
  {
    if |p.buffer| + |data| <= MAX_BUFFER {
      DriveSize(Appended(p, data));
    }
  }

  lemma {:induction false} DriveSize(p: Parser)
    requires Valid(p)
    ensures |Drive(p).1.buffer| <= |p.buffer|
    decreases Rank(p.phase)
  {
    if Rank(p.phase) > 0 {
      TurnValid(p);
      TurnSize(p);
      hide Turn;
      if Turn(p).ok {
        DriveSize(Turn(p).parser);
      }
    }
  }

  lemma TurnSize(p: Parser)
    requires Valid(p) && Rank(p.phase) > 0
    ensures |Turn(p).parser.buffer| <= |p.buffer|
  {
    hide CheckLine, CheckBlock, Decode, Find;
  }

  lemma {:induction false} FailedToTheEnd(pieces: seq<string>, n: nat, code: int)
    requires n <= |pieces| && |Flatten(pieces)| <= MAX_BUFFER && FailedWith(Deliver(pieces[..n]), code)
    ensures FailedWith(Deliver(pieces), code)
    decreases |pieces|
  {
    hide Feed;
    if n == |pieces| {
      assert pieces[..n] == pieces;
    } else {
      var k := |pieces| - 1;
      FlattenLast(pieces);
      assert pieces[..k][..n] == pieces[..n];
      FailedToTheEnd(pieces[..k], n, code);
      DeliverSize(pieces[..k]);
      FailedStays(Deliver(pieces[..k]).1, pieces[k]);
    }
  }

  /** The first pieces, whose cuts fall inside the head and fit: they are one piece. */
  lemma FrontJoins(head: string, w: string, pieces: seq<string>, n: nat)
    requires AtHead(head) && |head| + |w| <= MAX_BUFFER && Flatten(pieces) == head + w && 0 < n <= |pieces|
    requires forall m :: 0 < m < n ==> CutFits(head, Flatten(pieces[..m])) && |Flatten(pieces[..m])| < |head|
    ensures Deliver(pieces[..n]) == Feed(FRESH_PARSER, Flatten(pieces[..n])) && Flatten(pieces[..n]) <= head + w
  {
    hide AtHead, Feed, AsksForMore, CutFits;
    var front := pieces[..n];
    FlattenPrefix(pieces, n);
    forall m | 0 < m < n ensures AsksForMore(FRESH_PARSER, Flatten(front[..m])) {
      assert front[..m] == pieces[..m];
      FlattenPrefix(pieces, m);
      var x := Flatten(pieces[..m]);
      assert x == (head + w)[..|x|] == head[..|x|];
      HeadWaits(head, x);
    }
    AnyCutting(FRESH_PARSER, front);
  }

  /** One cut in the head that does not fit, and the request is refused. */
  lemma BadCutRefused(head: string, w: string, pieces: seq<string>)
    requires AtHead(head) && |head| + |w| <= MAX_BUFFER && Flatten(pieces) == head + w && !CutsFit(head, pieces)
    ensures FailedWith(Deliver(pieces), 431)
  {
    hide AtHead, Feed, CutFits;
    var k :| 0 < k <= |pieces| && !CutFits(head, Flatten(pieces[..k]));
    var n := FirstBadCut(head, pieces, k);
    CutInside(head, w, pieces, n);
    forall m | 0 < m < n ensures |Flatten(pieces[..m])| < |head| {
      FlattenPrefix(pieces[..n], m);
      assert pieces[..n][..m] == pieces[..m];
    }
    FrontJoins(head, w, pieces, n);
    HeadTooLong(head, Flatten(pieces[..n]));
    FailedToTheEnd(pieces, n, 431);
  }

  /** A head whose block is refused, whatever follows. */
  lemma BadBlock(head: string, rest: string)
    requires AtHead(head) && !HeadCheck(head).ok && |head| + |rest| <= MAX_BUFFER
    ensures FailedWith(Feed(FRESH_PARSER, head + rest), HeadCheck(head).fields.errorCode)
  {
    hide CheckLine, CheckBlock, At, Drive, Turn;
    var x, n := head + rest, Find(head, CRLF, 0).value;
    FindExtend(head, rest, CRLF, 0);
    FindExtend(head, rest, CRLF2, n + 2);
    assert x[..n] == head[..n] && x[n + 2..|head| - 4] == head[n + 2..|head| - 4];
    var p0 := FRESH_PARSER.(buffer := x);
    var p1 := p0.(pos := n + 2, startLine := Some(LineOf(head)), phase := HeaderBlock);
    FedFresh(x);
    StartTurn(p0, n, LineOf(head));
    DriveStep(p0, p1);
    hide Find;
    BadBlockTurn(p1, |head| - 4);
  }

  lemma BadBlockTurn(p: Parser, n: nat)
    requires Valid(p) && p.phase.HeaderBlock? && Find(p.buffer, CRLF2, p.pos) == Some(n)
    requires !CheckBlock(p.fields, p.buffer[p.pos..n]).ok
    ensures FailedWith(Drive(p), CheckBlock(p.fields, p.buffer[p.pos..n]).fields.errorCode)
  {
    hide CheckBlock, At, Find;
    TurnValid(p);
  }

  /** The first piece that reaches the end of the head. */
  lemma {:induction false} FirstReaching(head: string, pieces: seq<string>, k: nat) returns (n: nat)
    requires 0 < k <= |pieces| && |head| <= |Flatten(pieces[..k])|
    ensures 0 < n <= k && |head| <= |Flatten(pieces[..n])|
    ensures forall m :: 0 < m < n ==> |Flatten(pieces[..m])| < |head|
  {
    if m :| 0 < m < k && |head| <= |Flatten(pieces[..m])| {
      n := FirstReaching(head, pieces, m);
    } else {
      n := k;
    }
  }

  /** A request whose header block is refused, in any pieces: it fails with the code of the block, or with 431. */
  lemma BlockFails(head: string, w: string, pieces: seq<string>)
    requires AtHead(head) && !HeadCheck(head).ok && |head| + |w| <= MAX_BUFFER
    requires pieces != [] && Flatten(pieces) == head + w
    ensures FailedWith(Deliver(pieces), if CutsFit(head, pieces) then HeadCheck(head).fields.errorCode else 431)
  {
    hide AtHead, HeadCheck, Feed, CutFits;
    if CutsFit(head, pieces) {
      assert pieces[..|pieces|] == pieces;
      var n := FirstReaching(head, pieces, |pieces|);
      FrontJoins(head, w, pieces, n);
      var rest := CutPrefix(head, w, Flatten(pieces[..n]));
      BadBlock(head, rest);
      FailedToTheEnd(pieces, n, HeadCheck(head).fields.errorCode);
    } else {
      BadCutRefused(head, w, pieces);
    }
  }

  lemma CutInside(head: string, w: string, pieces: seq<string>, n: nat)
    requires n <= |pieces| && Flatten(pieces) == head + w && !CutFits(head, Flatten(pieces[..n]))
    ensures Flatten(pieces[..n]) <= head && |Flatten(pieces[..n])| < |head|
  {
    FlattenPrefix(pieces, n);
    var x := Flatten(pieces[..n]);
    assert x == (head + w)[..|x|] == head[..|x|];
  }

  /** Content-Length, in any pieces whose last is not empty: refused if a cut in the head does not fit, otherwise
      complete with exactly the body. */
  lemma SizedPieces(head: string, p: Parser, body: string, pieces: seq<string>)
    requires SentSized(head, p, body, pieces)
    ensures if CutsFit(head, pieces) then
              Deliver(pieces) == Deliver([head + body]) && Deliver(pieces).0.Ok? && Deliver(pieces).1.body == body
            else Deliver(pieces).0.Failed? && Deliver(pieces).1.fields.errorCode == 431
  {
    hide AtBody, Feed, AsksForMore, CutFits;
    if CutsFit(head, pieces) {
      forall n | 0 < n < |pieces| ensures AsksForMore(FRESH_PARSER, Flatten(pieces[..n])) {
        FlattenPrefix(pieces, n);
        SizedPrefixWaits(head, p, body, Flatten(pieces[..n]));
      }
      AnyCutting(FRESH_PARSER, pieces);
      SizedWhole(head, p, body);
      DeliverOne(head + body);
    } else {
      BodyBehindHead(head, p);
      BadCutRefused(head, body, pieces);
    }
  }

  lemma DeliverOne(x: string)
    ensures Deliver([x]) == Feed(FRESH_PARSER, x)
  {
    hide Feed;
    assert [x][..|[x]| - 1] == [] && FeedPieces(FRESH_PARSER, []) == (Again, FRESH_PARSER);
  }

  lemma CutsMakeHead(head: string, p: Parser)
    requires AtChunks(head, p)
    ensures Find(head, CRLF2, 0) == Some(|head| - 4)
  {
    hide CheckLine, CheckBlock, At;
    HeadCutsCoincide(head, p);
    assert p.pos == |head|;
  }

  /** Chunks in the spelling the decoder looks for. */
  lemma SpelledPieces(head: string, p: Parser, chunks: seq<Chunk>, zero: string, pieces: seq<string>)
    requires SentChunked(head, p, chunks, zero, pieces) && SaysChunked(head) && CutsFit(head, pieces)
    ensures Deliver(pieces) == Deliver([head + Wire(chunks, zero)])
    ensures Deliver(pieces).0.Ok? && Deliver(pieces).1.body == Payload(chunks)
  {
    hide AtBody, Feed, AsksForMore, At, Find, SaysChunked, AllowedPieces, Waits, Wire;
    CutsMakeHead(head, p);
    forall n | 0 < n < |pieces| ensures AsksForMore(FRESH_PARSER, Flatten(pieces[..n])) {
      ChunkedPieceWaits(head, p, chunks, zero, pieces, n);
    }
    AllowedJoins(pieces, head + Wire(chunks, zero));
    AnyCutting(FRESH_PARSER, pieces);
    ChunkedWhole(head, p, chunks, zero);
    DeliverOne(head + Wire(chunks, zero));
  }

  /** In another spelling the request is complete with its head: the body is what came with it, framing included. */
  lemma UnspelledWhole(head: string, p: Parser, y: string)
    requires AtChunks(head, p) && !SaysChunked(head) && |head| + |y| <= MAX_BUFFER
    ensures var (v, q) := Feed(FRESH_PARSER, head + y);
      v.Ok? && q.phase.Complete? && q.body == y && |q.buffer| == |head| + |y|
  {
    CutsMakeHead(head, p);
    FeedBehindHead(head, p, y);
    ChunkedDrive(head, p, y);
    DecodeUnspelled(head, y, 0);
    hide AtBody, Decode, SaysChunked, Feed;
    DriveBody(Appended(p, y));
    assert "" + y == y;
  }

  /** The parser, given a message and anything behind its last size line. */
  lemma ChunkedTail(head: string, p: Parser, chunks: seq<Chunk>, zero: string, tail: string)
    requires AtChunks(head, p) && SaysChunked(head) && GoodChunks(chunks) && GoodEnd(zero)
    requires |head| + |Framed(chunks, zero + (CRLF + tail))| <= MAX_BUFFER
    ensures var (v, q) := AtOnce(head + Framed(chunks, zero + (CRLF + tail)));
      v.Ok? && q.body == Payload(chunks) + AfterLastSize(tail) && q.pos == |q.buffer|
  {
    var w := Framed(chunks, zero + (CRLF + tail));
    CutsMakeHead(head, p);
    FeedBehindHead(head, p, w);
    ChunkedDrive(head, p, w);
    hide AtBody, Decode, SaysChunked, Feed, AfterLastSize, Framed, At, Find;
    DecodeMessage(head, chunks, zero, tail, 0);
    DriveBody(Appended(p, w));
    assert "" + (Payload(chunks) + AfterLastSize(tail)) == Payload(chunks) + AfterLastSize(tail);
  }

  lemma BehindFinalCrlf(next: string)
    ensures AfterLastSize(CRLF + next) == next
  {
    AtCrlf(CRLF + next, 0);
    assert Find(CRLF + next, CRLF, 0) == Some(0);
    assert (CRLF + next)[2..] == next;
  }

  /** A request pipelined behind a chunked one, in the same piece, becomes part of its body. */
  lemma NextJoinsBody(head: string, p: Parser, chunks: seq<Chunk>, zero: string, next: string)
    requires AtChunks(head, p) && SaysChunked(head) && GoodChunks(chunks) && GoodEnd(zero)
    requires |head| + |Wire(chunks, zero)| + |next| <= MAX_BUFFER
    ensures var (v, q) := AtOnce(head + (Wire(chunks, zero) + next));
      && v.Ok? && q.body == Payload(chunks) + next && q.pos == |q.buffer|
      && (q.body == Payload(chunks) <==> next == "")
  {
    hide AtChunks, SaysChunked, Feed, AfterLastSize, GoodChunks, GoodEnd;
    FramedExtends(chunks, zero + (CRLF + CRLF), next);
    assert zero + (CRLF + CRLF) + next == zero + (CRLF + (CRLF + next));
    ChunkedTail(head, p, chunks, zero, CRLF + next);
    BehindFinalCrlf(next);
  }

  /** The bytes behind the head that come in the piece that completes the head. */
  function WithHead(pieces: seq<string>, n: nat): string {
    if pieces == [] then ""
    else if n <= |pieces[0]| then pieces[0][n..]
    else WithHead(pieces[1..], n - |pieces[0]|)
  }

  /** One more piece: before the head is complete it matters, afterwards it does not. */
  lemma {:induction false} WithHeadLast(pieces: seq<string>, last: string, n: nat)
    requires 0 < n
    ensures |Flatten(pieces)| < n <= |Flatten(pieces)| + |last| ==>
      WithHead(pieces + [last], n) == (Flatten(pieces) + last)[n..]
    ensures n <= |Flatten(pieces)| ==> WithHead(pieces + [last], n) == WithHead(pieces, n)
    decreases pieces
  {
    if pieces == [] {
      assert [] + [last] == [last] && "" + last == last;
    } else {
      assert (pieces + [last])[1..] == pieces[1..] + [last];
      if n > |pieces[0]| {
        WithHeadLast(pieces[1..], last, n - |pieces[0]|);
        assert Flatten(pieces) + last == pieces[0] + (Flatten(pieces[1..]) + last);
      }
    }
  }

  /** A complete parser keeps its body when more comes. */
  lemma CompleteKeeps(p: Parser, data: string)
    requires Valid(p) && p.phase.Complete? && |p.buffer| + |data| <= MAX_BUFFER
    ensures Feed(p, data) == (Ok, Appended(p, data))
  {
  }

  /** One more piece for a parser that has asked for it, or for a fresh one. */
  lemma OneMore(init: seq<string>, last: string)
    requires init == [] || (AsksForMore(FRESH_PARSER, Flatten(init)) && Deliver(init) == AtOnce(Flatten(init)))
    requires |Flatten(init)| + |last| <= MAX_BUFFER
    ensures Deliver(init + [last]) == AtOnce(Flatten(init) + last)
  {
    hide Feed, AsksForMore;
    assert (init + [last])[..|init|] == init;
    if init == [] {
      assert "" + last == last && [] + [last] == [last];
      DeliverOne(last);
    } else {
      OneMorePiece(FRESH_PARSER, Flatten(init), last);
    }
  }

  /** Inside the head the parser has all bytes and waits; behind it, it is complete with what came with the head. */
  predicate Unspelled(head: string, pieces: seq<string>) {
    var all, r := Flatten(pieces), Deliver(pieces);
    if |all| < |head| then AsksForMore(FRESH_PARSER, all) && r == AtOnce(all)
    else r.0.Ok? && r.1.phase.Complete? && r.1.body == WithHead(pieces, |head|) && |r.1.buffer| == |all|
  }

  lemma UnspelledStep(head: string, p: Parser, w: string, init: seq<string>, last: string)
    requires AtChunks(head, p) && !SaysChunked(head) && |head| + |w| <= MAX_BUFFER
    requires Flatten(init) + last <= head + w && CutFits(head, Flatten(init) + last)
    requires init == [] || Unspelled(head, init)
    requires Flatten(init + [last]) == Flatten(init) + last
    ensures Unspelled(head, init + [last])
  {
    var all := Flatten(init) + last;
    hide AtChunks, Feed, AsksForMore, SaysChunked, CutFits, WithHead;
    ChunksBehindHead(head, p);
    WithHeadLast(init, last, |head|);
    assert (init + [last])[..|init|] == init;
    if |Flatten(init)| < |head| {
      OneMore(init, last);
      if |all| < |head| {
        assert all == (head + w)[..|all|] == head[..|all|];
        HeadWaits(head, all);
      } else {
        var y := CutPrefix(head, w, all);
        UnspelledWhole(head, p, y);
      }
    } else {
      CompleteKeeps(Deliver(init).1, last);
    }
  }

  /** The same in any pieces. */
  lemma {:induction false} UnspelledPieces(head: string, p: Parser, w: string, pieces: seq<string>)
    requires AtChunks(head, p) && !SaysChunked(head) && CutsFit(head, pieces) && pieces != []
    requires Flatten(pieces) <= head + w && |head| + |w| <= MAX_BUFFER
    ensures var (v, q) := Deliver(pieces);
      if |Flatten(pieces)| < |head| then
        AsksForMore(FRESH_PARSER, Flatten(pieces)) && (v, q) == Feed(FRESH_PARSER, Flatten(pieces))
      else v.Ok? && q.phase.Complete? && q.body == WithHead(pieces, |head|) && |q.buffer| == |Flatten(pieces)|
    decreases |pieces|
  {
    hide AtChunks, Feed, AsksForMore, SaysChunked, CutFits, WithHead, Deliver;
    var k := |pieces| - 1;
    var init, last := pieces[..k], pieces[k];
    FlattenLast(pieces);
    assert pieces == init + [last] && pieces[..|pieces|] == pieces;
    if k > 0 {
      forall n | 0 < n <= k ensures init[..n] == pieces[..n] {
      }
      UnspelledPieces(head, p, w, init);
    }
    UnspelledStep(head, p, w, init, last);
  }

  lemma ChunksBehindHead(head: string, p: Parser)
    requires AtChunks(head, p)
    ensures AtHead(head)
  {
    hide AtHead, HeadCheck, At, Find;
  }

  /** A chunked body in any allowed pieces, in any spelling. */
  lemma ChunkedPieces(head: string, p: Parser, chunks: seq<Chunk>, zero: string, pieces: seq<string>)
    requires SentChunked(head, p, chunks, zero, pieces)
    ensures if CutsFit(head, pieces) then
              && Deliver(pieces).0.Ok?
              && Deliver(pieces).1.body == if SaysChunked(head) then Payload(chunks) else WithHead(pieces, |head|)
            else Deliver(pieces).0.Failed? && Deliver(pieces).1.fields.errorCode == 431
  {
    hide SaysChunked, Deliver, WithHead, GoodChunks, Wire, CutsFit, AtBody;
    AllowedJoins(pieces, head + Wire(chunks, zero));
    if !CutsFit(head, pieces) {
      ChunksBehindHead(head, p);
      BadCutRefused(head, Wire(chunks, zero), pieces);
    } else if SaysChunked(head) {
      SpelledPieces(head, p, chunks, zero, pieces);
    } else {
      hide AtChunks;
      UnspelledPieces(head, p, Wire(chunks, zero), pieces);
    }
  }

  /** Sent in one piece, the body is the payload if and only if the head has the spelling the decoder looks for;
      otherwise it is the chunks as they were framed. */
  lemma SpellingDecides(head: string, p: Parser, chunks: seq<Chunk>, zero: string)
    requires AtChunks(head, p) && GoodChunks(chunks) && GoodEnd(zero) && |head| + |Wire(chunks, zero)| <= MAX_BUFFER
    ensures var (v, q) := AtOnce(head + Wire(chunks, zero));
      && v.Ok? && q.body == (if SaysChunked(head) then Payload(chunks) else Wire(chunks, zero))
      && (q.body == Payload(chunks) <==> SaysChunked(head))
  {
    WireIsLonger(chunks, zero + (CRLF + CRLF));
    if SaysChunked(head) {
      hide AtBody, SaysChunked, Feed, At, Find;
      CutsMakeHead(head, p);
      ChunkedWhole(head, p, chunks, zero);
    } else {
      hide AtChunks, SaysChunked, Feed;
      UnspelledWhole(head, p, Wire(chunks, zero));
    }
  }

  lemma AllowedJoins(pieces: seq<string>, whole: string)
    requires AllowedPieces(pieces, whole)
    ensures pieces != [] && Flatten(pieces) == whole
  {
  }

  lemma ChunkedPieceWaits(head: string, p: Parser, chunks: seq<Chunk>, zero: string, pieces: seq<string>, n: nat)
    requires SentChunked(head, p, chunks, zero, pieces) && ChunkedHead(head) && CutsFit(head, pieces)
    requires 0 < n < |pieces|
    ensures AsksForMore(FRESH_PARSER, Flatten(pieces[..n]))
  {
    hide AtBody, Feed, AsksForMore, At, Find, SaysChunked, Waits, Wire;
    FlattenPrefix(pieces, n);
    AllowedPiecesWait(head, chunks, zero, pieces, n);
    ChunkedPrefixWaits(head, p, Wire(chunks, zero), Flatten(pieces[..n]));
  }

  /** Two framings: the same body sent with its length and sent in chunks, each in any allowed pieces. Each is accepted
      if and only if the cuts in its head fit. They then give one body if and only if the chunked head has the spelling
      the decoder looks for, or by chance the bytes that come with the head are the body. */
  lemma TwoFramings(head1: string, p1: Parser, body: string, pieces1: seq<string>,
                    head2: string, p2: Parser, chunks: seq<Chunk>, zero: string, pieces2: seq<string>)
    requires SentSized(head1, p1, body, pieces1)
    requires SentChunked(head2, p2, chunks, zero, pieces2) && Payload(chunks) == body
    ensures Deliver(pieces1).0.Ok? <==> CutsFit(head1, pieces1)
    ensures Deliver(pieces2).0.Ok? <==> CutsFit(head2, pieces2)
    ensures CutsFit(head1, pieces1) ==> Deliver(pieces1).1.body == body
    ensures CutsFit(head1, pieces1) && CutsFit(head2, pieces2) ==>
      (Deliver(pieces1).1.body == Deliver(pieces2).1.body <==> SaysChunked(head2) || WithHead(pieces2, |head2|) == body)
  {
    hide SentSized, SentChunked, Deliver, SaysChunked, CutsFit;
    SizedPieces(head1, p1, body, pieces1);
    ChunkedPieces(head2, p2, chunks, zero, pieces2);
  }
}

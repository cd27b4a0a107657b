/** Pipelined requests cut anywhere: the requests parsed are those that were sent, whatever pieces recv returns. */
module Stream {
  import opened Text
  import opened Checks
  import opened ChunkDecoder
  import opened Parser
  import opened SplitIndependence
  import opened Pipelining
  import opened Framing

  /** Where the header block of a whole request ends. */
  function HeadEnd(r: string): nat {
    var crlf := Find(r, CRLF, 0);
    if crlf.None? then |r|
    else
      var end := Find(r, CRLF2, crlf.value + 2);
      if end.None? then |r| else end.value + 4
  }

  /** A request that no cut can make the parser refuse for its size. */
  predicate Fits(r: string) {
    Whole(r) && HeadEnd(r) <= MAX_HEADER + 1
  }

  predicate AllFit(rs: seq<string>) {
    forall i :: 0 <= i < |rs| ==> Fits(rs[i])
  }

  /** The parser behind the headers of a request. */
  function BehindHead(r: string): Parser
    requires Find(r, CRLF, 0).Some?
  {
    var n := Find(r, CRLF, 0).value;
    var line := CheckLine(r[..n]);
    var e := HeadEnd(r);
    var f := if e >= n + 6 then CheckBlock(FRESH_FIELDS, r[n + 2..e - 4]).fields else FRESH_FIELDS;
    FRESH_PARSER.(phase := if line.GoodLine? && (line.line.verb == "POST" || f.expected > 0) then Body else Complete,
                  startLine := if line.GoodLine? then Some(line.line) else None, fields := f, buffer := r, pos := e)
  }

  /** What a whole request consists of. */
  predicate Shape(r: string) {
    var crlf := Find(r, CRLF, 0);
    && crlf.Some? && CheckLine(r[..crlf.value]).GoodLine?
    && Find(r, CRLF2, crlf.value + 2) == Some(HeadEnd(r) - 4) && crlf.value + 6 <= HeadEnd(r) <= |r|
    && CheckBlock(FRESH_FIELDS, r[crlf.value + 2..HeadEnd(r) - 4]).ok
    && var p := BehindHead(r);
       && !p.fields.transferEncodingExists
       && if p.startLine.value.verb == "POST" && p.fields.contentLengthExists then |r| == HeadEnd(r) + p.fields.expected
          else |r| == HeadEnd(r)
  }

  lemma StartEnds(p: Parser)
    requires Valid(p) && p.phase.StartLine? && Drive(p).0.Ok?
    ensures var n := Find(p.buffer, CRLF, p.pos);
      n.Some? && CheckLine(p.buffer[p.pos..n.value]).GoodLine?
  {
    hide CheckLine, At;
    TurnValid(p);
  }

  lemma HeaderEnds(p: Parser)
    requires Valid(p) && p.phase.HeaderBlock? && Drive(p).0.Ok?
    ensures var n := Find(p.buffer, CRLF2, p.pos);
      n.Some? && CheckBlock(p.fields, p.buffer[p.pos..n.value]).ok
  {
    hide CheckBlock, At;
    TurnValid(p);
  }

  lemma HeaderTurnIs(p: Parser, n: nat)
    requires Valid(p) && p.phase.HeaderBlock? && Find(p.buffer, CRLF2, p.pos) == Some(n)
    requires CheckBlock(p.fields, p.buffer[p.pos..n]).ok
    ensures var f := CheckBlock(p.fields, p.buffer[p.pos..n]).fields;
      var next := if p.startLine.value.verb == "POST" || f.expected > 0 then Body else Complete;
      Turn(p) == Outcome(true, p.(pos := n + 4, fields := f, phase := next))
  {
    hide CheckBlock, At, Find;
  }

  /** The body of a request that is not chunked. */
  lemma BodyTurnIs(p: Parser)
    requires Valid(p) && p.phase.Body? && !p.fields.transferEncodingExists
    ensures var sized := p.startLine.value.verb == "POST" && p.fields.contentLengthExists;
      && (Drive(p).0.Ok? ==> Drive(p).1.pos == if sized then p.pos + p.fields.expected else p.pos)
      && (sized && |p.buffer| < p.pos + p.fields.expected ==> Turn(p) == Outcome(false, p))
  {
    TurnValid(p);
    hide At, Find;
  }

  /** The two turns of the head, in a buffer that holds it. */
  lemma TwoTurns(x: string, n: nat, line: RequestLine)
    requires |x| <= MAX_BUFFER && Find(x, CRLF, 0) == Some(n) && CheckLine(x[..n]) == GoodLine(line)
    ensures var p0 := FRESH_PARSER.(buffer := x);
        var p1 := p0.(pos := n + 2, startLine := Some(line), phase := HeaderBlock);
      && Valid(p0) && Turn(p0) == Outcome(true, p1) && Valid(p1)
      && Drive(p0) == Drive(p1) && WrappedTurns(p0) == WrappedTurns(p1)
  {
    hide CheckLine, At, Find, Drive, WrappedTurns, Turn;
    var p0 := FRESH_PARSER.(buffer := x);
    StartTurn(p0, n, line);
    DriveStep(p0, p0.(pos := n + 2, startLine := Some(line), phase := HeaderBlock));
  }

  lemma WholeShape(r: string)
    requires Whole(r)
    ensures Shape(r) && |r| <= MAX_BUFFER
  {
    hide CheckLine, CheckBlock, At, Turn, WrappedTurns;
    var p0 := FRESH_PARSER.(buffer := r);
    assert Appended(FRESH_PARSER, r) == p0;
    StartEnds(p0);
    var n := Find(r, CRLF, 0).value;
    var line := CheckLine(r[..n]).line;
    assert r[0..n] == r[..n];
    TwoTurns(r, n, line);
    var p1 := p0.(pos := n + 2, startLine := Some(line), phase := HeaderBlock);
    HeaderEnds(p1);
    var e := Find(r, CRLF2, n + 2).value;
    HeaderTurnIs(p1, e);
    var p2 := BehindHead(r);
    assert Turn(p1) == Outcome(true, p2);
    DriveStep(p1, p2);
    WholeBody(r, p2);
  }

  lemma WholeBody(r: string, p: Parser)
    requires Valid(p) && (p.phase.Body? || p.phase.Complete?) && Drive(p).0.Ok?
        && !Drive(p).1.fields.transferEncodingExists
    requires Drive(p).1.pos == |r|
    requires p.phase.Complete? ==> p.startLine.value.verb != "POST"
    ensures !p.fields.transferEncodingExists
    ensures |r| == if p.startLine.value.verb == "POST" && p.fields.contentLengthExists then p.pos + p.fields.expected
        else p.pos
  {
    hide At, Find;
    BodyKeepsFields(p);
    if p.phase.Body? {
      BodyTurnIs(p);
    }
  }

  lemma BodyKeepsFields(p: Parser)
    requires Valid(p) && (p.phase.Body? || p.phase.Complete?) && Drive(p).0.Ok?
    ensures Drive(p).1.fields == p.fields
  {
    if p.phase.Body? {
      TurnValid(p);
      hide Decode, At, Find;
    }
  }

  lemma ShapeHead(r: string)
    requires Shape(r)
    ensures var crlf := Find(r, CRLF, 0);
      && crlf.Some? && CheckLine(r[..crlf.value]).GoodLine?
      && Find(r, CRLF2, crlf.value + 2) == Some(HeadEnd(r) - 4) && crlf.value + 6 <= HeadEnd(r) <= |r|
  {
    hide CheckLine, CheckBlock, At, Find;
  }

  /** The loop, started on x, asks for more. */
  predicate LoopAsks(p: Parser) {
    Valid(p) && Drive(p).0.Again? && WrappedTurns(p) == 0
  }

  lemma AsksIfLoopDoes(x: string)
    requires |x| <= MAX_BUFFER && LoopAsks(FRESH_PARSER.(buffer := x))
    ensures AsksForMore(FRESH_PARSER, x)
  {
    hide Drive, WrappedTurns;
    assert Appended(FRESH_PARSER, x) == FRESH_PARSER.(buffer := x);
  }

  lemma LoopWaits(p: Parser)
    requires Valid(p) && Rank(p.phase) > 1 && Turn(p) == Outcome(false, p)
    ensures LoopAsks(p)
  {
    hide Turn;
    DriveWaits(p);
  }

  /** Every proper prefix of a whole request makes a fresh parser ask for more. */
  lemma PrefixWaits(r: string, x: string, y: string)
    requires Fits(r) && r == x + y && y != ""
    ensures AsksForMore(FRESH_PARSER, x)
  {
    WholeShape(r);
    hide CheckLine, CheckBlock, At, Find, Whole, LoopAsks, Shape, HeadEnd, AsksForMore;
    PrefixAsks(r, x, y);
  }

  lemma PrefixAsks(r: string, x: string, y: string)
    requires Shape(r) && HeadEnd(r) <= MAX_HEADER + 1 && |r| <= MAX_BUFFER && r == x + y && y != ""
    ensures AsksForMore(FRESH_PARSER, x)
  {
    hide CheckLine, CheckBlock, At, Find, LoopAsks, Shape, HeadEnd, AsksForMore;
    if Find(x, CRLF, 0).None? {
      WaitsForLine(x);
    } else {
      PrefixWithLine(r, x, y);
    }
    AsksIfLoopDoes(x);
  }

  lemma WaitsForLine(x: string)
    requires |x| <= MAX_BUFFER && Find(x, CRLF, 0).None?
    ensures LoopAsks(FRESH_PARSER.(buffer := x))
  {
    hide At, Find, Turn, LoopAsks;
    StartWaits(FRESH_PARSER.(buffer := x));
    LoopWaits(FRESH_PARSER.(buffer := x));
  }

  lemma PrefixWithLine(r: string, x: string, y: string)
    requires Shape(r) && HeadEnd(r) <= MAX_HEADER + 1 && |r| <= MAX_BUFFER && r == x + y && y != ""
    requires Find(x, CRLF, 0).Some?
    ensures LoopAsks(FRESH_PARSER.(buffer := x))
  {
    LineOfPrefix(r, x, y);
    hide CheckLine, CheckBlock, At, Find, LoopAsks;
    PrefixFromLine(r, x, y, Find(x, CRLF, 0).value, CheckLine(r[..Find(r, CRLF, 0).value]).line);
  }

  lemma PrefixFromLine(r: string, x: string, y: string, n: nat, line: RequestLine)
    requires Shape(r) && HeadEnd(r) <= MAX_HEADER + 1 && |r| <= MAX_BUFFER && r == x + y && y != ""
    requires Find(r, CRLF, 0) == Find(x, CRLF, 0) == Some(n) && n + 2 <= |x|
    requires CheckLine(x[..n]) == CheckLine(r[..n]) == GoodLine(line)
    ensures LoopAsks(FRESH_PARSER.(buffer := x))
  {
    hide *;
    PrefixBehindLine(r, x, y, FRESH_PARSER.(buffer := x, pos := n + 2, startLine := Some(line), phase := HeaderBlock));
    LoopFromLine(x, n, line);
  }

  lemma LineOfPrefix(r: string, x: string, y: string)
    requires r == x + y && Find(x, CRLF, 0).Some?
    ensures var n := Find(x, CRLF, 0).value;
      n + 2 <= |x| && Find(r, CRLF, 0) == Some(n) && x[..n] == r[..n]
  {
    hide At;
    FindExtend(x, y, CRLF, 0);
  }

  lemma LoopFromLine(x: string, n: nat, line: RequestLine)
    requires |x| <= MAX_BUFFER && Find(x, CRLF, 0) == Some(n) && CheckLine(x[..n]) == GoodLine(line)
    requires LoopAsks(FRESH_PARSER.(buffer := x, pos := n + 2, startLine := Some(line), phase := HeaderBlock))
    ensures LoopAsks(FRESH_PARSER.(buffer := x))
  {
    TwoTurns(x, n, line);
    hide CheckLine, At, Find, Turn, Drive, WrappedTurns;
  }

  lemma PrefixBehindLine(r: string, x: string, y: string, p: Parser)
    requires Shape(r) && HeadEnd(r) <= MAX_HEADER + 1 && |r| <= MAX_BUFFER && r == x + y && y != ""
    requires var n := Find(r, CRLF, 0).value;
      n + 2 <= |x| && CheckLine(r[..n]).GoodLine?
      && p == FRESH_PARSER.(buffer := x, pos := n + 2, startLine := Some(CheckLine(r[..n]).line), phase := HeaderBlock)
    ensures LoopAsks(p)
  {
    hide CheckLine, CheckBlock, At, Turn, Drive, WrappedTurns, LoopAsks;
    var n := Find(r, CRLF, 0).value;
    if Find(x, CRLF2, n + 2).None? {
      ShortOfHead(r, x, n);
      HeaderWaits(p);
      LoopWaits(p);
    } else {
      PrefixInBody(r, x, y, p);
    }
  }

  /** A prefix that holds the headers is short of the body. */
  lemma PrefixInBody(r: string, x: string, y: string, p: Parser)
    requires Shape(r) && r == x + y && y != "" && Valid(p)
    requires var n := Find(r, CRLF, 0).value;
      && Find(x, CRLF2, n + 2).Some? && CheckLine(r[..n]).GoodLine?
      && p == FRESH_PARSER.(buffer := x, pos := n + 2, startLine := Some(CheckLine(r[..n]).line), phase := HeaderBlock)
    ensures LoopAsks(p)
  {
    hide CheckLine, CheckBlock, At, Turn, Drive, WrappedTurns;
    var n := Find(r, CRLF, 0).value;
    FindExtend(x, y, CRLF2, n + 2);
    var e := Find(x, CRLF2, n + 2).value;
    assert x[n + 2..e] == r[n + 2..e];
    HeaderTurnIs(p, e);
    var q := BehindHead(r).(buffer := x);
    assert Turn(p) == Outcome(true, q);
    DriveStep(p, q);
    BodyTurnIs(q);
    DriveWaits(q);
  }

  /** Without the end of the headers, no more than 8 KiB have arrived. */
  lemma ShortOfHead(r: string, x: string, n: nat)
    requires Find(r, CRLF2, n + 2) == Some(HeadEnd(r) - 4) && HeadEnd(r) <= MAX_HEADER + 1
    requires x <= r && Find(x, CRLF2, n + 2).None?
    ensures |x| <= MAX_HEADER
  {
    hide HeadEnd;
    if HeadEnd(r) <= |x| {
      CutAt(r, |x|);
      assert x == r[..|x|];
      EndInPrefix(x, r[|x|..], n + 2, HeadEnd(r) - 4);
    }
  }

  lemma EndInPrefix(x: string, y: string, n: nat, m: nat)
    requires Find(x + y, CRLF2, n) == Some(m) && m + 4 <= |x|
    ensures Find(x, CRLF2, n).Some?
  {
    AtExtend(x, y, CRLF2, m);
  }

  lemma CutAt(r: string, i: nat)
    requires i <= |r|
    ensures r == r[..i] + r[i..]
  {
  }

  /** A head longer than that, cut before its last byte, is refused. */
  lemma CutRefused(r: string, x: string, y: string, n: nat, e: nat)
    requires r == x + y && |x| == e - 1 && n + 6 <= e <= |r| <= MAX_BUFFER && e > MAX_HEADER + 1
    requires Find(r, CRLF, 0) == Some(n) && Find(r, CRLF2, n + 2) == Some(e - 4) && CheckLine(r[..n]).GoodLine?
    ensures Feed(FRESH_PARSER, x).0.Failed? && Feed(FRESH_PARSER, x).1.fields.errorCode == 431
  {
    hide CheckLine, At, Find, Drive;
    CutBeforeLast(r, x, y, n, e);
    var line := CheckLine(r[..n]).line;
    assert x[..n] == r[..n];
    TwoTurns(x, n, line);
    HeaderTooLarge(FRESH_PARSER.(buffer := x, pos := n + 2, startLine := Some(line), phase := HeaderBlock));
    assert Appended(FRESH_PARSER, x) == FRESH_PARSER.(buffer := x);
  }

  lemma CutBeforeLast(r: string, x: string, y: string, n: nat, e: nat)
    requires r == x + y && |x| == e - 1 && n + 6 <= e <= |r|
    requires Find(r, CRLF, 0) == Some(n) && Find(r, CRLF2, n + 2) == Some(e - 4)
    ensures Find(x, CRLF, 0) == Some(n) && Find(x, CRLF2, n + 2).None?
  {
    AtExtend(x, y, CRLF, n);
    if Find(x, CRLF, 0).Some? {
      FindExtend(x, y, CRLF, 0);
    }
    if Find(x, CRLF2, n + 2).Some? {
      FindExtend(x, y, CRLF2, n + 2);
    }
  }

  lemma FailedIsNotAsking(x: string)
    requires Feed(FRESH_PARSER, x).0.Failed?
    ensures !AsksForMore(FRESH_PARSER, x)
  {
    hide Feed;
  }

  lemma CutOnce(r: string, i: nat)
    requires Fits(r) && i < |r|
    ensures AsksForMore(FRESH_PARSER, r[..i])
  {
    hide *;
    CutAt(r, i);
    PrefixWaits(r, r[..i], r[i..]);
  }

  /** A whole request can be cut anywhere if and only if its head is at most one byte longer than 8 KiB. */
  lemma CutAnywhere(r: string)
    requires Whole(r)
    ensures Fits(r) <==> forall i :: 0 <= i < |r| ==> AsksForMore(FRESH_PARSER, r[..i])
  {
    hide Whole, HeadEnd, Shape, AsksForMore;
    if Fits(r) {
      forall i | 0 <= i < |r| ensures AsksForMore(FRESH_PARSER, r[..i]) {
        CutOnce(r, i);
      }
    } else {
      WholeShape(r);
      var i := LongHead(r);
    }
  }

  lemma LongHead(r: string) returns (i: nat)
    requires Shape(r) && |r| <= MAX_BUFFER && HeadEnd(r) > MAX_HEADER + 1
    ensures i < |r| && !AsksForMore(FRESH_PARSER, r[..i])
  {
    hide *;
    ShapeHead(r);
    i := HeadEnd(r) - 1;
    RefusedAt(r, Find(r, CRLF, 0).value, i);
  }

  lemma RefusedAt(r: string, n: nat, i: nat)
    requires n + 5 <= i < |r| <= MAX_BUFFER && i > MAX_HEADER
    requires Find(r, CRLF, 0) == Some(n) && Find(r, CRLF2, n + 2) == Some(i - 3) && CheckLine(r[..n]).GoodLine?
    ensures !AsksForMore(FRESH_PARSER, r[..i])
  {
    hide *;
    CutAt(r, i);
    CutRefused(r, r[..i], r[i..], n, i + 1);
    FailedIsNotAsking(r[..i]);
  }

  /** What a fresh parser makes of the beginning of a stream of requests: it completes the first when all of it is
      there, and asks for more before. */
  lemma Beginning(rs: seq<string>, z: string)
    requires AllFit(rs) && z <= Flatten(rs) && |z| <= MAX_BUFFER
    ensures if rs != [] && |rs[0]| <= |z| then rs[0] <= z && Feed(FRESH_PARSER, z) == (Ok, Finished(rs[0], z))
            else AsksForMore(FRESH_PARSER, z)
  {
    hide Whole, Feed, AsksForMore, HeadEnd;
    if rs == [] {
      NothingYet();
    } else if |z| < |rs[0]| {
      assert Fits(rs[0]);
      assert rs[0] == z + rs[0][|z|..];
      PrefixWaits(rs[0], z, rs[0][|z|..]);
    } else {
      assert Fits(rs[0]) && AllWhole(rs[1..]);
      var rest := z[|rs[0]|..];
      assert z == rs[0] + rest && rest <= Flatten(rs[1..]);
      FlattenStartsUpper(rs[1..]);
      assert rest != "" ==> rest[0] == Flatten(rs[1..])[0];
      WholeThenMore(rs[0], rest);
    }
  }

  lemma NothingYet()
    ensures AsksForMore(FRESH_PARSER, "")
  {
    hide CheckLine;
    var p := Appended(FRESH_PARSER, "");
    assert p == FRESH_PARSER.(buffer := "");
    StartWaits(p);
    DriveWaits(p);
  }

  /** The parser that has read the request r, with the bytes of z in its buffer. */
  function Finished(r: string, z: string): Parser {
    Feed(FRESH_PARSER, r).1.(buffer := z)
  }

  /** The parser wants bytes: it has just been reset, or what it has been given makes a fresh parser ask for more. */
  predicate Asking(p: Parser) {
    p == FRESH_PARSER.(buffer := p.buffer)
        || (AsksForMore(FRESH_PARSER, p.buffer) && p == Feed(FRESH_PARSER, p.buffer).1)
  }

  /** What feed_data is called with always fits into the buffer. */
  predicate Roomy(calls: seq<Call>) {
    calls == [] ||
    var before, last := calls[..|calls| - 1], calls[|calls| - 1];
    Roomy(before) && (last.Fed? ==> |Run(before).0.buffer| + |last.data| <= MAX_BUFFER)
  }

  /** Where the parser stands in the stream: k requests consumed, and either it wants more of the next one, or it has
      completed it; whatever it has not consumed is in the buffer. */
  predicate Stands(calls: seq<Call>, rs: seq<string>, k: nat) {
    && k <= |rs| && Run(calls).1 == Flatten(rs[..k]) && AllFed(calls) == Run(calls).1 + Run(calls).0.buffer
    && StandsAt(Run(calls).0, Parsed(calls), rs, k)
  }

  predicate StandsAt(p: Parser, parsed: seq<Request>, rs: seq<string>, k: nat) {
    && k <= |rs|
    && ((Asking(p) && parsed == Requests(rs[..k]))
        || (k < |rs| && rs[k] <= p.buffer && p == Finished(rs[k], p.buffer) && parsed == Requests(rs[..k + 1])))
  }

  lemma {:induction false} RequestsLast(rs: seq<string>, k: nat)
    requires k < |rs|
    ensures Requests(rs[..k + 1]) == Requests(rs[..k]) + [RequestOf(Feed(FRESH_PARSER, rs[k]).1)]
  {
    hide Feed;
    if k > 0 {
      RequestsLast(rs[1..], k - 1);
      assert rs[..k + 1][1..] == rs[1..][..k] && rs[..k][1..] == rs[1..][..k - 1];
    }
  }

  /** More bytes for a parser that wants them are the same bytes in one piece. */
  lemma AskingFed(p: Parser, data: string)
    requires Valid(p) && Asking(p) && |p.buffer| + |data| <= MAX_BUFFER
    ensures Feed(p, data) == Feed(FRESH_PARSER, p.buffer + data)
  {
    hide Drive;
    if p == FRESH_PARSER.(buffer := p.buffer) {
      assert Appended(p, data) == Appended(FRESH_PARSER, p.buffer + data);
    } else {
      OneMorePiece(FRESH_PARSER, p.buffer, data);
    }
  }

  /** The unread part of a stream, cut at a request. */
  lemma Ahead(rs: seq<string>, k: nat, x: string)
    requires k <= |rs| && Flatten(rs[..k]) + x <= Flatten(rs)
    ensures x <= Flatten(rs[k..])
  {
    FlattenAppend(rs[..k], rs[k..]);
    assert rs[..k] + rs[k..] == rs;
    assert x == (Flatten(rs[..k]) + x)[|Flatten(rs[..k])|..];
  }

  lemma FinishedIs(r: string, z: string)
    requires Whole(r)
    ensures var p := Finished(r, z);
      p.phase.Complete? && p.pos == |r| && p.buffer == z && RequestOf(p) == RequestOf(Feed(FRESH_PARSER, r).1)
  {
    FeedValid(FRESH_PARSER, r);
    hide Feed;
  }

  lemma AskingIs(p: Parser)
    requires Asking(p)
    ensures !p.phase.Complete?
  {
    FeedValid(FRESH_PARSER, p.buffer);
    hide Feed;
  }

  lemma AskedIs(z: string)
    requires AsksForMore(FRESH_PARSER, z)
    ensures var q := Feed(FRESH_PARSER, z).1;
      q.buffer == z && Asking(q) && !q.phase.Complete?
  {
    FeedValid(FRESH_PARSER, z);
    hide Feed, WrappedInFeed;
    assert "" + z == z;
  }

  /** After feed_data: still the same request, or it is complete. */
  lemma FedStep(calls: seq<Call>, rs: seq<string>, k: nat, data: string)
    requires AllFit(rs) && Stands(calls, rs, k) && Rank(Run(calls).0.phase) > 0
    requires |Run(calls).0.buffer| + |data| <= MAX_BUFFER && AllFed(calls) + data <= Flatten(rs)
    ensures Stands(calls + [Fed(data)], rs, k)
  {
    hide Feed, StandsAt, AllFit;
    var (p, consumed) := Run(calls);
    RunStep(calls, Fed(data));
    hide Run, AllFed, Parsed;
    AppendBehind(consumed, p.buffer, data);
    Ahead(rs, k, p.buffer + data);
    FedStands(p, Parsed(calls), rs, k, data);
  }

  lemma FedStands(p: Parser, parsed: seq<Request>, rs: seq<string>, k: nat, data: string)
    requires Valid(p) && AllFit(rs) && StandsAt(p, parsed, rs, k) && Rank(p.phase) > 0
    requires |p.buffer| + |data| <= MAX_BUFFER && p.buffer + data <= Flatten(rs[k..])
    ensures var q := Feed(p, data).1;
      && q.buffer == p.buffer + data
      && StandsAt(q, if q.phase.Complete? then parsed + [RequestOf(q)] else parsed, rs, k)
  {
    var z := p.buffer + data;
    StandsAsking(p, parsed, rs, k);
    hide Feed, AsksForMore, Finished, RequestOf, Asking, Requests, AllFit, Flatten, StandsAt;
    AskingFed(p, data);
    BeginningBehind(rs, k, z);
    OutcomeStands(Feed(p, data).1, parsed, rs, k, z);
  }

  lemma OutcomeStands(q: Parser, parsed: seq<Request>, rs: seq<string>, k: nat, z: string)
    requires AllFit(rs) && k <= |rs| && parsed == Requests(rs[..k])
    requires (AsksForMore(FRESH_PARSER, z) && q == Feed(FRESH_PARSER, z).1)
        || (k < |rs| && rs[k] <= z && q == Finished(rs[k], z))
    ensures q.buffer == z && StandsAt(q, if q.phase.Complete? then parsed + [RequestOf(q)] else parsed, rs, k)
  {
    hide Feed, AsksForMore, Finished, RequestOf, Asking, Requests, AllFit;
    if AsksForMore(FRESH_PARSER, z) && q == Feed(FRESH_PARSER, z).1 {
      AskedIs(z);
    } else {
      FitsAt(rs, k);
      FinishedIs(rs[k], z);
      RequestsLast(rs, k);
    }
  }

  lemma FitsAt(rs: seq<string>, k: nat)
    requires AllFit(rs) && k < |rs|
    ensures Whole(rs[k])
  {
    assert Fits(rs[k]);
    hide Whole;
  }

  lemma StandsAsking(p: Parser, parsed: seq<Request>, rs: seq<string>, k: nat)
    requires AllFit(rs) && StandsAt(p, parsed, rs, k)
    ensures Rank(p.phase) > 0 ==> Asking(p) && parsed == Requests(rs[..k])
    ensures p.phase.Complete? ==>
      k < |rs| && rs[k] <= p.buffer && p.pos == |rs[k]| && parsed == Requests(rs[..k + 1])
  {
    hide Finished, Asking, Requests, AllFit, Whole;
    if Asking(p) {
      AskingIs(p);
    }
    if k < |rs| {
      FitsAt(rs, k);
      FinishedIs(rs[k], p.buffer);
    }
  }

  lemma BeginningBehind(rs: seq<string>, k: nat, z: string)
    requires AllFit(rs) && k <= |rs| && z <= Flatten(rs[k..]) && |z| <= MAX_BUFFER
    ensures if k < |rs| && |rs[k]| <= |z| then rs[k] <= z && Feed(FRESH_PARSER, z) == (Ok, Finished(rs[k], z))
            else AsksForMore(FRESH_PARSER, z)
  {
    hide Fits, AsksForMore, Feed, Finished;
    Beginning(rs[k..], z);
  }

  lemma FlattenNext(rs: seq<string>, k: nat)
    requires k < |rs|
    ensures Flatten(rs[..k + 1]) == Flatten(rs[..k]) + rs[k]
  {
    FlattenLast(rs[..k + 1]);
    assert rs[..k + 1][..k] == rs[..k];
  }

  /** After reset: the next request. */
  lemma ResetStep(calls: seq<Call>, rs: seq<string>, k: nat)
    requires AllFit(rs) && Stands(calls, rs, k) && Run(calls).0.phase.Complete?
    ensures k < |rs| && Stands(calls + [WasReset], rs, k + 1)
  {
    var (p, consumed) := Run(calls);
    StandsAsking(p, Parsed(calls), rs, k);
    hide Feed, AllFit, RequestOf, Run, Asking, Flatten, AllFed, Parsed, Requests, Reset;
    RunStep(calls, WasReset);
    ResetAsks(p);
    FlattenNext(rs, k);
    hide StandsAt;
    AskingStands(Reset(p), Parsed(calls), rs, k + 1);
    MoveForward(consumed, p.buffer, |rs[k]|);
  }

  lemma AskingStands(p: Parser, parsed: seq<Request>, rs: seq<string>, k: nat)
    requires Asking(p) && k <= |rs| && parsed == Requests(rs[..k])
    ensures StandsAt(p, parsed, rs, k)
  {
    hide Asking, Requests;
  }

  lemma ResetAsks(p: Parser)
    requires p.pos <= |p.buffer|
    ensures Asking(Reset(p)) && Reset(p).buffer == p.buffer[p.pos..]
  {
    hide AsksForMore, Feed;
  }

  /** Any run of the event loop's calls on a stream of requests, cut in any way: the requests parsed are, in order, the
      first of those that were sent, and the parser stands in the stream behind the last one consumed. */
  lemma {:induction false} AnyStream(calls: seq<Call>, rs: seq<string>) returns (k: nat)
    requires AllFit(rs) && AllFed(calls) <= Flatten(rs) && Disciplined(calls) && Roomy(calls)
    ensures Stands(calls, rs, k)
    decreases |calls|
  {
    if calls == [] {
      k := 0;
      StandsFirst(rs);
    } else {
      var before, last := calls[..|calls| - 1], calls[|calls| - 1];
      InitAndLast(calls);
      assert Disciplined(before) && Roomy(before);
      hide Stands, AllFit, Disciplined, Roomy;
      AllFedGrows(before, last);
      hide Run, AllFed, Flatten;
      k := AnyStream(before, rs);
      if last.Fed? {
        FedStep(before, rs, k, last.data);
      } else {
        ResetStep(before, rs, k);
        k := k + 1;
      }
    }
  }

  lemma InitAndLast(calls: seq<Call>)
    requires calls != []
    ensures calls == calls[..|calls| - 1] + [calls[|calls| - 1]]
  {
  }

  lemma StandsFirst(rs: seq<string>)
    ensures Stands([], rs, 0)
  {
    hide Feed, AsksForMore;
    assert rs[..0] == [] && "" + "" == "";
    assert FRESH_PARSER == FRESH_PARSER.(buffer := "");
  }

  lemma AllFedGrows(calls: seq<Call>, call: Call)
    ensures AllFed(calls) <= AllFed(calls + [call])
    ensures call.Fed? ==> AllFed(calls + [call]) == AllFed(calls) + call.data
  {
    hide Run;
    assert (calls + [call])[..|calls|] == calls;
  }

  lemma {:induction false} RequestsPrefix(rs: seq<string>, k: nat)
    requires k <= |rs|
    ensures Requests(rs[..k]) <= Requests(rs) && |Requests(rs)| == |rs| && |Requests(rs[..k])| == k
  {
    hide Feed;
    if rs != [] {
      RequestsPrefix(rs[1..], if k > 0 then k - 1 else 0);
      if k > 0 {
        assert rs[..k][1..] == rs[1..][..k - 1];
      }
    }
  }

  /** What the parser has been given and not read. */
  function Unread(p: Parser): string {
    if p.phase.Complete? && p.pos <= |p.buffer| then p.buffer[p.pos..] else p.buffer
  }

  /** No request of the stream is left when no byte of it is. */
  lemma NothingAhead(rs: seq<string>, k: nat)
    requires AllFit(rs) && k <= |rs| && Flatten(rs[..k]) == Flatten(rs)
    ensures k == |rs|
  {
    if k < |rs| {
      assert Fits(rs[k]);
      OneMoreRequest(rs, k);
    }
  }

  lemma OneMoreRequest(rs: seq<string>, k: nat)
    requires k < |rs| && Whole(rs[k])
    ensures |Flatten(rs[..k])| < |Flatten(rs)|
  {
    WholeStartsUpper(rs[k]);
    hide *;
    FlattenNext(rs, k);
    FlattenPrefix(rs, k + 1);
  }

  /** While feed_data has room: no error, no request that was not sent, none out of order, and all of them if and only
      if no byte is left unread. */
  lemma RoomyParsed(calls: seq<Call>, rs: seq<string>)
    requires AllFit(rs) && AllFed(calls) <= Flatten(rs) && Disciplined(calls) && Roomy(calls)
    ensures !Run(calls).0.phase.Error? && Parsed(calls) <= Requests(rs)
    ensures AllFed(calls) == Flatten(rs) ==> (Parsed(calls) == Requests(rs) <==> Unread(Run(calls).0) == "")
  {
    hide AllFit, Disciplined, Roomy;
    var k := AnyStream(calls, rs);
    var p := Run(calls).0;
    hide Run, AllFed, Parsed, Requests, Flatten;
    NoError(p, Parsed(calls), rs, k);
    StandsAsking(p, Parsed(calls), rs, k);
    var n := if p.phase.Complete? then k + 1 else k;
    RequestsPrefix(rs, n);
    assert rs[..|rs|] == rs;
    AllRead(calls, rs, k, n);
    if AllFed(calls) == Flatten(rs) && Unread(p) == "" {
      NothingAhead(rs, n);
    }
  }

  /** Under the event loop's discipline only the last call can have overflowed, for it leaves a parser that has
      failed. */
  lemma {:induction false} OverflowIsLast(calls: seq<Call>)
    requires Disciplined(calls) && !Roomy(calls)
    ensures calls != [] && calls[|calls| - 1].Fed? && Run(calls).0.phase.Error?
    ensures var before := calls[..|calls| - 1];
      && Disciplined(before) && Roomy(before) && Parsed(calls) == Parsed(before) && AllFed(before) <= AllFed(calls)
    decreases |calls|
  {
    hide Drive;
    var before := calls[..|calls| - 1];
    if !Roomy(before) {
      OverflowIsLast(before);
    }
  }

  /** Where the n-th request of a stream ends. */
  function End(rs: seq<string>, n: nat): nat
    requires n <= |rs|
  {
    |Flatten(rs[..n])|
  }

  /** How many requests have been parsed: one more at a call of feed_data, never two, when the bytes fed so far reach
      the end of the next one. */
  function Count(calls: seq<Call>, rs: seq<string>): (n: nat)
    ensures n <= |rs|
  {
    if calls == [] then 0
    else
      var n := Count(calls[..|calls| - 1], rs);
      if calls[|calls| - 1].Fed? && n < |rs| && End(rs, n + 1) <= |AllFed(calls)| then n + 1 else n
  }

  /** How many calls of feed_data there were after which at least e bytes had been fed. */
  function Behind(calls: seq<Call>, e: nat): nat {
    if calls == [] then 0
    else
      Behind(calls[..|calls| - 1], e) + if calls[|calls| - 1].Fed? && e <= |AllFed(calls)| then 1 else 0
  }

  /** For each of the first n requests there were enough calls from its last byte on: one for it, and one for each
      request behind it. */
  predicate EnoughCalls(calls: seq<Call>, rs: seq<string>, n: nat)
    requires n <= |rs|
  {
    forall j :: 1 <= j <= n ==> Behind(calls, End(rs, j)) >= n - j + 1
  }

  lemma CountStep(calls: seq<Call>, call: Call, rs: seq<string>, e: nat)
    ensures var n, more := Count(calls, rs), calls + [call];
      && Count(more, rs) ==
           (if call.Fed? && n < |rs| && End(rs, n + 1) <= |AllFed(calls) + call.data| then n + 1 else n)
      && Behind(more, e) == Behind(calls, e) + (if call.Fed? && e <= |AllFed(calls) + call.data| then 1 else 0)
  {
    var more := calls + [call];
    assert more[..|more| - 1] == calls && more[|more| - 1] == call;
    AllFedGrows(calls, call);
    hide AllFed, End;
  }

  lemma EndsGrow(rs: seq<string>, i: nat, n: nat)
    requires i <= n <= |rs|
    ensures End(rs, i) <= End(rs, n)
  {
    FlattenPrefix(rs[..n], i);
    assert rs[..n][..i] == rs[..i];
  }

  /** Nothing lies behind bytes that have not been fed. */
  lemma {:induction false} BehindIsFed(calls: seq<Call>, e: nat)
    ensures Behind(calls, e) > 0 ==> e <= |AllFed(calls)|
    decreases |calls|
  {
    if calls != [] {
      var before, last := calls[..|calls| - 1], calls[|calls| - 1];
      BehindIsFed(before, e);
    }
  }

  /** The two ways of counting: n requests have been parsed when there were enough calls for n. */
  lemma {:induction false} CountReaches(calls: seq<Call>, rs: seq<string>, n: nat)
    requires n <= |rs|
    ensures n <= Count(calls, rs) <==> EnoughCalls(calls, rs, n)
    decreases |calls|
  {
    if calls == [] {
      assert n >= 1 ==> Behind(calls, End(rs, 1)) == 0;
    } else if n > 0 {
      var before, last := calls[..|calls| - 1], calls[|calls| - 1];
      CountReaches(before, rs, n);
      CountReaches(before, rs, n - 1);
      BehindIsFed(calls, End(rs, n));
      forall j | 1 <= j <= n ensures End(rs, j) <= End(rs, n) {
        EndsGrow(rs, j, n);
      }
      CountMore(calls, before, rs, n);
    }
  }

  lemma CountMore(calls: seq<Call>, before: seq<Call>, rs: seq<string>, n: nat)
    requires calls != [] && before == calls[..|calls| - 1] && 0 < n <= |rs|
    requires n <= Count(before, rs) <==> EnoughCalls(before, rs, n)
    requires n - 1 <= Count(before, rs) <==> EnoughCalls(before, rs, n - 1)
    requires Behind(calls, End(rs, n)) > 0 ==> End(rs, n) <= |AllFed(calls)|
    requires forall j :: 1 <= j <= n ==> End(rs, j) <= End(rs, n)
    ensures n <= Count(calls, rs) <==> EnoughCalls(calls, rs, n)
  {
    hide End, AllFed;
    if EnoughCalls(calls, rs, n) {
      assert Behind(calls, End(rs, n)) >= 1;
      forall j | 1 <= j <= n - 1 ensures Behind(before, End(rs, j)) >= n - 1 - j + 1 {
        assert Behind(calls, End(rs, j)) >= n - j + 1;
      }
      assert EnoughCalls(before, rs, n - 1);
    }
    if n <= Count(calls, rs) {
      forall j | 1 <= j <= n ensures Behind(calls, End(rs, j)) >= n - j + 1 {
        assert n <= Count(before, rs) ==> Behind(before, End(rs, j)) >= n - j + 1;
        assert j < n ==> Behind(before, End(rs, j)) >= n - j;
      }
    }
  }

  /** The parser has parsed as many requests as were counted. */
  lemma {:induction false} ParsedIsCounted(calls: seq<Call>, rs: seq<string>)
    requires AllFit(rs) && AllFed(calls) <= Flatten(rs) && Disciplined(calls) && Roomy(calls)
    ensures |Parsed(calls)| == Count(calls, rs)
    decreases |calls|
  {
    if calls != [] {
      var before, last := calls[..|calls| - 1], calls[|calls| - 1];
      InitAndLast(calls);
      AllFedGrows(before, last);
      assert Disciplined(before) && Roomy(before);
      hide AllFit, Disciplined, Roomy, Stands, Run, AllFed, Flatten, Parsed, Count;
      ParsedIsCounted(before, rs);
      CountStep(before, last, rs, 0);
      if last.Fed? {
        var k := AnyStream(before, rs);
        FedIsCounted(before, rs, k, last.data);
      } else {
        RunStep(before, WasReset);
      }
    }
  }

  lemma FedIsCounted(calls: seq<Call>, rs: seq<string>, k: nat, data: string)
    requires AllFit(rs) && Stands(calls, rs, k) && Rank(Run(calls).0.phase) > 0
    requires |Run(calls).0.buffer| + |data| <= MAX_BUFFER && AllFed(calls) + data <= Flatten(rs)
    ensures |Parsed(calls)| == k
    ensures |Parsed(calls + [Fed(data)])| == if k < |rs| && End(rs, k + 1) <= |AllFed(calls) + data| then k + 1 else k
  {
    hide Feed, StandsAt, AllFit, RequestOf, Asking, AsksForMore;
    var (p, consumed) := Run(calls);
    var z := p.buffer + data;
    RunStep(calls, Fed(data));
    hide Run, AllFed, Parsed, Requests;
    AppendBehind(consumed, p.buffer, data);
    Ahead(rs, k, z);
    StandsAsking(p, Parsed(calls), rs, k);
    RequestsPrefix(rs, k);
    AskingFed(p, data);
    BeginningBehind(rs, k, z);
    if k < |rs| {
      FlattenNext(rs, k);
    }
    hide Flatten;
    if k < |rs| && |rs[k]| <= |z| {
      FitsAt(rs, k);
      FinishedIs(rs[k], z);
    } else {
      AskedIs(z);
    }
  }

  /** However a stream of requests is cut: no request that was not sent, none out of order, and at any moment as
      many as were counted; an error exactly when a piece did not fit into the buffer. Without one, all requests
      have been parsed if and only if there were enough calls behind the end of each; for what is left then some
      byte is unread. */
  lemma StreamParsed(calls: seq<Call>, rs: seq<string>)
    requires AllFit(rs) && AllFed(calls) <= Flatten(rs) && Disciplined(calls)
    ensures Parsed(calls) <= Requests(rs)
    ensures Run(calls).0.phase.Error? <==> !Roomy(calls)
    ensures Roomy(calls) ==>
      && Parsed(calls) == Requests(rs[..Count(calls, rs)])
      && (Parsed(calls) == Requests(rs) <==> EnoughCalls(calls, rs, |rs|))
    ensures Roomy(calls) && AllFed(calls) == Flatten(rs) ==>
      (Parsed(calls) == Requests(rs) <==> Unread(Run(calls).0) == "")
  {
    if Roomy(calls) {
      hide *;
      RoomyParsed(calls, rs);
      ParsedIsCounted(calls, rs);
      var n := Count(calls, rs);
      RequestsPrefix(rs, n);
      CountReaches(calls, rs, |rs|);
      assert Parsed(calls) == Requests(rs)[..n] == Requests(rs[..n]);
      assert rs[..|rs|] == rs;
    } else {
      hide AllFit, Requests, Flatten, Feed;
      OverflowIsLast(calls);
      RoomyParsed(calls[..|calls| - 1], rs);
    }
  }

  lemma AllRead(calls: seq<Call>, rs: seq<string>, k: nat, n: nat)
    requires AllFit(rs) && Stands(calls, rs, k)
    requires n == if Run(calls).0.phase.Complete? then k + 1 else k
    ensures n <= |rs| && AllFed(calls) == Flatten(rs[..n]) + Unread(Run(calls).0)
  {
    var p := Run(calls).0;
    StandsAsking(p, Parsed(calls), rs, k);
    hide Run, AllFed, Parsed, Requests, StandsAt, Flatten, AllFit;
    if n == k + 1 {
      FlattenNext(rs, k);
      assert p.buffer[..p.pos] == rs[k];
      MoveForward(Flatten(rs[..k]), p.buffer, p.pos);
    }
  }

  lemma NoError(p: Parser, parsed: seq<Request>, rs: seq<string>, k: nat)
    requires AllFit(rs) && StandsAt(p, parsed, rs, k)
    ensures !p.phase.Error?
  {
    hide Finished, Whole, AllFit;
    if k < |rs| {
      FitsAt(rs, k);
      FinishedIs(rs[k], p.buffer);
    }
    if Asking(p) {
      FeedValid(FRESH_PARSER, p.buffer);
      hide Feed;
    }
  }

  /** Two requests that arrive in one piece: after the first is answered and the parser reset, the second lies in the
      buffer, whole and unparsed, until feed_data is called with more. */
  lemma SecondLiesUnparsed(first: string, second: string)
    requires Fits(first) && Fits(second) && |first| + |second| <= MAX_BUFFER
    ensures var calls := [Fed(first + second), WasReset];
      && Disciplined(calls) && AllFed(calls) == first + second
      && Run(calls).0 == FRESH_PARSER.(buffer := second) && Parsed(calls) == Requests([first])
  {
    hide Whole, Feed, Run, HeadEnd, RequestOf;
    WholeStartsUpper(second);
    WholeThenMore(first, second);
    FinishedIs(first, first + second);
    var fed := [Fed(first + second)];
    OneCall(first + second);
    assert fed + [WasReset] == [Fed(first + second), WasReset];
    RunStep(fed, WasReset);
    DisciplinedStep(fed, WasReset);
    assert (first + second)[|first|..] == second;
  }

  lemma OneCall(data: string)
    ensures var q := Feed(FRESH_PARSER, data).1;
      && Run([Fed(data)]).0 == q && AllFed([Fed(data)]) == data && Disciplined([Fed(data)])
      && Parsed([Fed(data)]) == if q.phase.Complete? then [RequestOf(q)] else []
  {
    hide Feed;
    assert [] + [Fed(data)] == [Fed(data)];
    RunStep([], Fed(data));
    DisciplinedStep([], Fed(data));
    assert "" + data == data && Parsed([]) == [] && AllFed([]) == "" && Run([]).0 == FRESH_PARSER;
  }
}

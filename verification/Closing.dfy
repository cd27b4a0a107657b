/** What the header blocks of the requests on a connection say about keeping it: read off the bytes the parser holds
    when it completes a request, not off its flag. */
module Closing {
  import opened Text
  import opened Headers
  import opened Checks
  import opened HeaderRules
  import opened ChunkDecoder
  import opened Parser
  import opened SplitIndependence
  import opened Pipelining
  import opened Framing
  import opened PrintedRequests
  import opened Stream
  import opened PrintedStreams

  /** A start line and a header block stand at the beginning. */
  predicate HasHead(s: string) {
    var crlf := Find(s, CRLF, 0);
    crlf.Some? && Find(s, CRLF2, crlf.value + 2).Some?
  }

  /** The header block of the request at the beginning. */
  function HeadBlock(s: string): string {
    if !HasHead(s) then ""
    else
      var n := Find(s, CRLF, 0).value;
      s[n + 2..Find(s, CRLF2, n + 2).value]
  }

  /** The map getline makes of the block holds `connection: close`. */
  predicate BlockSaysClose(block: string) {
    var m := ReadBlock(block, KEPT);
    m.Some? && SaysClose(m.value)
  }

  /** What the parser knows about the request it stands in; once the headers are read, its flag is what they say. */
  predicate Told(p: Parser) {
    match p.phase
    case StartLine => p.pos == 0 && p.fields == FRESH_FIELDS
    case HeaderBlock => p.fields == FRESH_FIELDS && 2 <= p.pos && Find(p.buffer, CRLF, 0) == Some(p.pos - 2)
    case Body => HasHead(p.buffer) && (p.fields.keepAlive <==> !BlockSaysClose(HeadBlock(p.buffer)))
    case Complete => HasHead(p.buffer) && (p.fields.keepAlive <==> !BlockSaysClose(HeadBlock(p.buffer)))
    case Error => true
  }

  lemma StartTells(p: Parser)
    requires Valid(p) && p.phase.StartLine? && Told(p)
    ensures Told(Turn(p).parser)
  {
    hide CheckLine, Find, At;
  }

  lemma HeadersTell(p: Parser)
    requires Valid(p) && p.phase.HeaderBlock? && Told(p)
    ensures Told(Turn(p).parser)
  {
    var end := Find(p.buffer, CRLF2, p.pos);
    hide CheckBlock, Find, At, ReadBlock, KEPT, SaysClose, Fine, Code;
    if end.Some? {
      BlockJudged(p.buffer[p.pos..end.value]);
    }
  }

  lemma BodyTells(p: Parser)
    requires Valid(p) && p.phase.Body? && Told(p)
    ensures Told(Turn(p).parser)
  {
    hide Decode, HasHead, HeadBlock, BlockSaysClose;
  }

  lemma {:induction false} DriveTells(p: Parser)
    requires Valid(p) && Told(p)
    ensures Told(Drive(p).1)
    decreases Rank(p.phase)
  {
    hide Turn, Told;
    if Rank(p.phase) > 0 {
      TurnValid(p);
      match p.phase {
        case StartLine => StartTells(p);
        case HeaderBlock => HeadersTell(p);
        case Body => BodyTells(p);
      }
      if Turn(p).ok {
        DriveTells(Turn(p).parser);
      }
    }
  }

  /** More bytes behind it do not change the head. */
  lemma HeadExtends(s: string, t: string)
    requires HasHead(s)
    ensures HasHead(s + t) && HeadBlock(s + t) == HeadBlock(s)
  {
    hide At;
    var n := Find(s, CRLF, 0).value;
    FindExtend(s, t, CRLF, 0);
    FindExtend(s, t, CRLF2, n + 2);
    var e := Find(s, CRLF2, n + 2).value;
    assert (s + t)[n + 2..e] == s[n + 2..e];
  }

  lemma AppendTells(p: Parser, data: string)
    requires Told(p)
    ensures Told(Appended(p, data))
  {
    hide At, Find, HasHead, HeadBlock, BlockSaysClose;
    if p.phase.HeaderBlock? {
      FindExtend(p.buffer, data, CRLF, 0);
    } else if p.phase.Body? || p.phase.Complete? {
      HeadExtends(p.buffer, data);
    }
  }

  lemma FeedTells(p: Parser, data: string)
    requires Valid(p) && Told(p)
    ensures Told(Feed(p, data).1)
  {
    if |p.buffer| + |data| <= MAX_BUFFER {
      AppendTells(p, data);
      hide Told, Drive;
      DriveTells(Appended(p, data));
    }
  }

  lemma ResetTells(p: Parser)
    ensures Told(Reset(p))
  {
  }

  /** The header blocks of the requests the calls have completed. */
  function Blocks(calls: seq<Call>): seq<string> {
    if calls == [] then []
    else
      var before := Blocks(calls[..|calls| - 1]);
      var p := Run(calls).0;
      if calls[|calls| - 1].Fed? && p.phase.Complete? then before + [HeadBlock(p.buffer)] else before
  }

  lemma BlocksStep(calls: seq<Call>, call: Call)
    ensures var q := Run(calls + [call]).0;
      Blocks(calls + [call]) == if call.Fed? && q.phase.Complete? then Blocks(calls) + [HeadBlock(q.buffer)]
                                else Blocks(calls)
  {
    var more := calls + [call];
    assert more[..|more| - 1] == calls && more[|more| - 1] == call;
    hide Run, HeadBlock;
  }

  /** One for each parsed request. */
  lemma {:induction false} AsManyBlocks(calls: seq<Call>)
    ensures |Blocks(calls)| == |Parsed(calls)|
    decreases |calls|
  {
    hide Run, HeadBlock, RequestOf;
    if calls != [] {
      AsManyBlocks(calls[..|calls| - 1]);
    }
  }

  predicate NoneSaysClose(blocks: seq<string>) {
    forall i :: 0 <= i < |blocks| ==> !BlockSaysClose(blocks[i])
  }

  /** None but possibly the last. */
  predicate NoneBefore(blocks: seq<string>) {
    blocks != [] && NoneSaysClose(blocks[..|blocks| - 1])
  }

  predicate LastSaysClose(blocks: seq<string>) {
    blocks != [] && BlockSaysClose(blocks[|blocks| - 1])
  }

  lemma OneMoreBlock(blocks: seq<string>, block: string)
    requires NoneSaysClose(blocks)
    ensures NoneBefore(blocks + [block]) && (LastSaysClose(blocks + [block]) <==> BlockSaysClose(block))
  {
    hide BlockSaysClose;
    assert (blocks + [block])[..|blocks|] == blocks;
  }

  lemma NoneAtAll(blocks: seq<string>)
    requires NoneBefore(blocks) && !LastSaysClose(blocks)
    ensures NoneSaysClose(blocks)
  {
    hide BlockSaysClose;
    forall i | 0 <= i < |blocks| ensures !BlockSaysClose(blocks[i]) {
      if i < |blocks| - 1 {
        assert blocks[i] == blocks[..|blocks| - 1][i];
      }
    }
  }

  /** The blocks are, in order, those of the first requests of a stream. */
  predicate BlocksOf(blocks: seq<string>, rs: seq<string>) {
    |blocks| <= |rs| && forall i :: 0 <= i < |blocks| ==> blocks[i] == HeadBlock(rs[i])
  }

  lemma BlockAtEnd(p: Parser, parsed: seq<Request>, rs: seq<string>, k: nat)
    requires AllFit(rs) && StandsAt(p, parsed, rs, k) && p.phase.Complete?
    ensures |parsed| == k + 1 <= |rs| && HeadBlock(p.buffer) == HeadBlock(rs[k])
  {
    hide *;
    StandsAsking(p, parsed, rs, k);
    FitsHasHead(rs, k);
    RequestsPrefix(rs, k + 1);
    var rest := p.buffer[|rs[k]|..];
    assert p.buffer == rs[k] + rest;
    HeadExtends(rs[k], rest);
  }

  lemma FitsHasHead(rs: seq<string>, k: nat)
    requires AllFit(rs) && k < |rs|
    ensures HasHead(rs[k])
  {
    hide Whole, HeadEnd, HasHead;
    assert Fits(rs[k]);
    WholeShape(rs[k]);
    ShapeHasHead(rs[k]);
  }

  lemma ShapeHasHead(r: string)
    requires Shape(r)
    ensures HasHead(r)
  {
    hide CheckLine, CheckBlock, At, Find;
  }

  /** A request has just been completed: its block. */
  lemma CompletedBlock(calls: seq<Call>, rs: seq<string>)
    requires AllFit(rs) && AllFed(calls) <= Flatten(rs) && Disciplined(calls) && Run(calls).0.phase.Complete?
    ensures 0 < |Blocks(calls)| <= |rs|
    ensures HeadBlock(Run(calls).0.buffer) == HeadBlock(rs[|Blocks(calls)| - 1])
  {
    hide *;
    if !Roomy(calls) {
      OverflowIsLast(calls);
    }
    var k := AnyStream(calls, rs);
    AsManyBlocks(calls);
    StandsThere(calls, rs, k);
    BlockAtEnd(Run(calls).0, Parsed(calls), rs, k);
  }

  /** However a stream of requests is cut: the block of each parsed request is the one that was sent. */
  lemma {:induction false} StreamBlocks(calls: seq<Call>, rs: seq<string>)
    requires AllFit(rs) && AllFed(calls) <= Flatten(rs) && Disciplined(calls)
    ensures BlocksOf(Blocks(calls), rs)
    decreases |calls|
  {
    hide AllFit, Flatten, HeadBlock, AllFed, Run, Disciplined, Parsed, Roomy;
    if calls != [] {
      var before, last := calls[..|calls| - 1], calls[|calls| - 1];
      InitAndLast(calls);
      DisciplinedStep(before, last);
      AllFedGrows(before, last);
      StreamBlocks(before, rs);
      BlocksStep(before, last);
      if last.Fed? && Run(calls).0.phase.Complete? {
        CompletedBlock(calls, rs);
      }
    }
  }

  lemma StandsThere(calls: seq<Call>, rs: seq<string>, k: nat)
    requires Stands(calls, rs, k)
    ensures StandsAt(Run(calls).0, Parsed(calls), rs, k)
  {
    hide Run, StandsAt, Parsed, AllFed, Flatten;
  }

  /** What a printed request says: the last field with that name counts, in any letter case and with any blanks. */
  predicate PrintedSaysClose(q: Printed) {
    var fields := AllFields(q);
    var last := LastField(fields, "connection");
    last.Some? && Lower(Trim(fields[last.value].value)) == "close"
  }

  lemma PrintedBlock(q: Printed)
    requires GoodRequest(q)
    ensures BlockSaysClose(HeadBlock(Print(q))) <==> PrintedSaysClose(q)
  {
    assert "connection" in KEPT;
    LastValueWins(AllFields(q), map[], KEPT, "connection");
    hide CheckLine, KEPT, At, Find, RequestHead, PrintBlock, Acceptable, GoodName, PrintDecimal, Meaning, LastField,
        Lower,
        Trim;
    GoodAllFields(q);
    hide GoodRequest, AllFields, GoodFields;
    var head := RequestHead(q.line, AllFields(q));
    NoReturn(q);
    PrintedShape(q.line, AllFields(q));
    HeadExtends(head, BodyOf(q));
    Headers.PrintThenRead(AllFields(q), map[], KEPT);
    assert HeadBlock(head) == PrintBlock(AllFields(q));
  }

  lemma NoReturn(q: Printed)
    requires GoodRequest(q)
    ensures '\r' !in q.line
  {
    hide CheckLine, CommonFields, RequestHead, Print, AllFields;
  }

  lemma {:induction false} PrintAllAt(qs: seq<Printed>, i: nat)
    requires i < |qs|
    ensures |PrintAll(qs)| == |qs| && PrintAll(qs)[i] == Print(qs[i])
  {
    hide Print;
    AsMany(qs);
    if i > 0 {
      PrintAllAt(qs[1..], i - 1);
    }
  }

  /** The block of each parsed request says what the client printed. */
  lemma PrintedBlocks(calls: seq<Call>, qs: seq<Printed>)
    requires forall i :: 0 <= i < |qs| ==> GoodRequest(qs[i])
    requires AllFed(calls) <= Flatten(PrintAll(qs)) && Disciplined(calls)
    ensures |Blocks(calls)| <= |qs|
    ensures forall i :: 0 <= i < |Blocks(calls)| ==> (BlockSaysClose(Blocks(calls)[i]) <==> PrintedSaysClose(qs[i]))
  {
    hide *;
    PrintedAllFit(qs);
    StreamBlocks(calls, PrintAll(qs));
    AsMany(qs);
    BlocksOfMeans(Blocks(calls), PrintAll(qs));
    forall i | 0 <= i < |Blocks(calls)| ensures BlockSaysClose(Blocks(calls)[i]) <==> PrintedSaysClose(qs[i]) {
      SentBlock(qs, i, Blocks(calls)[i]);
    }
  }

  lemma BlocksOfMeans(blocks: seq<string>, rs: seq<string>)
    requires BlocksOf(blocks, rs)
    ensures |blocks| <= |rs| && forall i :: 0 <= i < |blocks| ==> blocks[i] == HeadBlock(rs[i])
  {
    hide HeadBlock;
  }

  lemma SentBlock(qs: seq<Printed>, i: nat, block: string)
    requires i < |qs| && GoodRequest(qs[i]) && i < |PrintAll(qs)| && block == HeadBlock(PrintAll(qs)[i])
    ensures BlockSaysClose(block) <==> PrintedSaysClose(qs[i])
  {
    hide *;
    PrintAllAt(qs, i);
    PrintedBlock(qs[i]);
  }
}

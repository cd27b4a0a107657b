/** The parser does not see how TCP cuts the stream. */
module SplitIndependence {
  import opened Text
  import opened HexSize
  import opened Checks
  import opened ChunkDecoder
  import opened Parser

  /** The phase in which new bytes go through the chunk decoder. */
  predicate Decoding(p: Parser) {
    p.phase.Body? && p.startLine.Some? && p.startLine.value.verb == "POST" && p.fields.transferEncodingExists
        && p.processed < |p.buffer|
  }

  /** Wrapped steps the decoder takes while the loop runs: a size line hex_to_dec rejects, with more bytes behind it. */
  function WrappedTurns(p: Parser): nat
    requires Valid(p)
    decreases Rank(p.phase)
  {
    if Rank(p.phase) == 0 then 0
    else
      TurnValid(p);
      (if Decoding(p) then WrappedIn(p.decoder, p.buffer[p.processed..]) else 0)
      + if Turn(p).ok then WrappedTurns(Turn(p).parser) else 0
  }

  function WrappedInFeed(p: Parser, data: string): nat
    requires Valid(p)
  {
    if |p.buffer| + |data| > MAX_BUFFER then 0 else WrappedTurns(Appended(p, data))
  }

  /** The body bytes gathered so far. */
  function Gathered(p: Parser): string {
    if p.phase.Complete? then p.body else p.accumulated
  }

  /** The same state but for `extra` more bytes gathered. */
  predicate SameButGathered(r: Parser, s: Parser, extra: int) {
    && r.phase == s.phase && |Gathered(s)| == |Gathered(r)| + extra
    && s == if r.phase.Complete? then r.(body := s.body) else r.(accumulated := s.accumulated)
  }

  /** What has been found stays found when more bytes stand behind the buffer. */
  lemma StartLineMore(p: Parser, b: string)
    requires p.pos <= |p.buffer| && (ParseStartLine(p).ok || ParseStartLine(p).parser.phase.Error?) && !p.phase.Error?
    ensures ParseStartLine(Appended(p, b)) == ParseStartLine(p).(parser := Appended(ParseStartLine(p).parser, b))
  {
    hide At, CheckLine;
    FindExtend(p.buffer, b, CRLF, p.pos);
    var end := Find(p.buffer, CRLF, p.pos).value;
    assert (p.buffer + b)[p.pos..end] == p.buffer[p.pos..end];
  }

  lemma HeadersMore(p: Parser, b: string)
    requires p.pos <= |p.buffer| && ParseHeaders(p).ok
    ensures ParseHeaders(Appended(p, b)) == ParseHeaders(p).(parser := Appended(ParseHeaders(p).parser, b))
  {
    hide At, CheckBlock;
    FindExtend(p.buffer, b, CRLF2, p.pos);
    var end := Find(p.buffer, CRLF2, p.pos).value;
    assert (p.buffer + b)[p.pos..end] == p.buffer[p.pos..end];
  }

  /** A turn that is finished before the body is finished in the same way with more bytes there. */
  lemma TurnMore(p: Parser, b: string)
    requires Valid(p) && Rank(p.phase) > 1 && |p.buffer| + |b| <= MAX_BUFFER && Turn(p).ok
    ensures Turn(Appended(p, b)) == Turn(p).(parser := Appended(Turn(p).parser, b))
  {
    if p.phase.StartLine? {
      StartLineMore(p, b);
    } else {
      HeadersMore(p, b);
    }
  }

  /** Waiting changes the state only where the decoder has taken the bytes in. */
  lemma WaitsUnchanged(p: Parser)
    requires Valid(p) && Rank(p.phase) > 0 && !Turn(p).ok && !Turn(p).parser.phase.Error? && !Decoding(p)
    ensures Turn(p).parser == p
  {
  }

  /** Two outcomes of the decoding phase that differ in `extra` gathered bytes. */
  predicate SameOutcome(later: Outcome, whole: Outcome, extra: int) {
    && later.ok == whole.ok
    && if later.ok then
         whole.parser == later.parser.(body := whole.parser.body) && |whole.parser.body| == |later.parser.body| + extra
       else
         whole.parser == later.parser.(accumulated := whole.parser.accumulated)
         && |whole.parser.accumulated| == |later.parser.accumulated| + extra
  }

  predicate OutcomesAgree(later: Outcome, whole: Outcome, k: nat, n: nat) {
    (k == 0 ==> later == whole) && SameOutcome(later, whole, k * n)
  }

  lemma AbsorbJoins(p: Parser, b: string, first: Progress, second: Progress, whole: Progress, k: nat)
    requires Joins(first, second, whole, k, |b|) && !first.done
    ensures OutcomesAgree(Absorb(Appended(Absorb(p, first).parser, b), second), Absorb(Appended(p, b), whole), k, |b|)
  {
    assert p.accumulated + first.out + second.out == p.accumulated + (first.out + second.out);
  }

  /** More bytes behind a state in which everything so far has been given to the decoder, and before that. */
  lemma ChunkedLater(p: Parser, first: Progress, b: string)
    requires !first.done && b != ""
    ensures var q := Absorb(p, first).parser;
      ParseChunked(Appended(q, b)) == Absorb(Appended(q, b), Decode(first.decoder, |p.accumulated| + |first.out|, b))
  {
    var q := Absorb(p, first).parser;
    assert (q.buffer + b)[q.processed..] == b;
    assert |q.accumulated| == |p.accumulated| + |first.out|;
  }

  lemma ChunkedAtOnce(p: Parser, b: string)
    requires p.processed < |p.buffer|
    ensures ParseChunked(Appended(p, b))
            == Absorb(Appended(p, b), Decode(p.decoder, |p.accumulated|, p.buffer[p.processed..] + b))
  {
    assert (p.buffer + b)[p.processed..] == p.buffer[p.processed..] + b;
  }

  lemma DecoderJoins(p: Parser, b: string)
    requires Valid(p) && Decoding(p) && |p.buffer| + |b| <= MAX_BUFFER
    requires !Decode(p.decoder, |p.accumulated|, p.buffer[p.processed..]).done
    ensures var a, n := p.buffer[p.processed..], |p.accumulated|;
      var first := Decode(p.decoder, n, a);
      Joins(first, Decode(first.decoder, n + |first.out|, b), Decode(p.decoder, n, a + b), WrappedIn(p.decoder, a), |b|)
  {
    DecodeSplit(p.decoder, |p.accumulated|, p.buffer[p.processed..], b);
  }

  /** The decoder's part: bytes that come later against bytes that are there already. */
  lemma ChunkedMore(p: Parser, b: string, q: Parser)
    requires Valid(p) && Decoding(p) && |p.buffer| + |b| <= MAX_BUFFER && b != ""
    requires ParseChunked(p) == Outcome(false, q)
    ensures OutcomesAgree(ParseChunked(Appended(q, b)), ParseChunked(Appended(p, b)),
        WrappedIn(p.decoder, p.buffer[p.processed..]), |b|)
  {
    var a, n := p.buffer[p.processed..], |p.accumulated|;
    var first := Decode(p.decoder, n, a);
    ChunkedLater(p, first, b); hide *;
    ChunkedAtOnce(p, b);
    DecoderJoins(p, b);
    AbsorbJoins(p, b, first, Decode(first.decoder, n + |first.out|, b), Decode(p.decoder, n, a + b),
        WrappedIn(p.decoder, a));
  }

  /** A finished turn, and a turn that waits, as steps of the loop. */
  lemma DriveStep(p: Parser, q: Parser)
    requires Valid(p) && Rank(p.phase) > 0 && Turn(p) == Outcome(true, q)
    ensures Valid(q) && Drive(p) == Drive(q)
    ensures !Decoding(p) ==> WrappedTurns(p) == WrappedTurns(q)
  {
    TurnValid(p);
    hide Turn;
  }

  lemma DriveWaits(p: Parser)
    requires Valid(p) && Rank(p.phase) > 0 && Turn(p) == Outcome(false, p)
    ensures Drive(p) == (Again, p)
    ensures !Decoding(p) ==> WrappedTurns(p) == 0
  {
    TurnValid(p);
    hide Turn;
  }

  /** From a state in which the loop waits: going on with b later is having had b at once, but for the bytes that
      wrapped steps copy from behind. */
  lemma {:induction false} SplitDrive(p: Parser, b: string)
    requires Valid(p) && |p.buffer| + |b| <= MAX_BUFFER && Drive(p).0.Again?
    ensures Valid(Drive(p).1) && Drive(p).1.buffer == p.buffer
    ensures var later, whole := Drive(Appended(Drive(p).1, b)), Drive(Appended(p, b));
      && later.0 == whole.0
      && (WrappedTurns(p) == 0 || b == "" ==> later == whole)
      && (WrappedTurns(p) > 0 ==> SameButGathered(later.1, whole.1, WrappedTurns(p) * |b|))
    decreases Rank(p.phase)
  {
    DriveValid(p);
    TurnValid(p);
    if Turn(p).ok {
      TurnMore(p, b);
      SplitDrive(Turn(p).parser, b);
    } else if !Decoding(p) {
      WaitsUnchanged(p);
    } else {
      SplitDecoding(p, b);
    }
  }

  lemma SplitDecoding(p: Parser, b: string)
    requires Valid(p) && |p.buffer| + |b| <= MAX_BUFFER && Drive(p).0.Again? && Decoding(p) && !Turn(p).ok
    requires Valid(Drive(p).1) && Drive(p).1.buffer == p.buffer
    ensures var later, whole := Drive(Appended(Drive(p).1, b)), Drive(Appended(p, b));
      && later.0 == whole.0
      && (WrappedTurns(p) == 0 || b == "" ==> later == whole)
      && (WrappedTurns(p) > 0 ==> SameButGathered(later.1, whole.1, WrappedTurns(p) * |b|))
  {
    var q := Drive(p).1;
    assert q == ParseChunked(p).parser;
    if b == "" {
      assert p.buffer + b == p.buffer && q.buffer + b == q.buffer;
      assert Drive(q) == (Again, q);
    } else {
      ChunkedMore(p, b, q);
      DriveBody(Appended(q, b));
      DriveBody(Appended(p, b));
    }
  }

  /** What the loop does in the decoding phase. */
  lemma DriveBody(p: Parser)
    requires Valid(p) && Decoding(p)
    ensures var r := ParseChunked(p);
      Drive(p) == if r.ok then (Ok, r.parser.(phase := Complete)) else (Again, r.parser)
  {
    TurnValid(p);
  }

  lemma GatheredDiffers(r: Parser, s: Parser, k: nat, b: string)
    requires SameButGathered(r, s, k * |b|) && k > 0 && b != ""
    ensures r != s
  {
    assert k * |b| > 0;
  }

  /** Split independence of feed_data. If the first piece makes it answer AGAIN, feeding the second piece answers what
      feeding both at once answers. Beyond 10 MiB that is error 413 in both cases; otherwise the states are the same
      exactly when the first piece did not take data behind a rejected size line, or the second one is empty. */
  lemma SplitFeed(p: Parser, a: string, b: string)
    requires Valid(p) && Feed(p, a).0.Again?
    ensures Valid(Feed(p, a).1)
    ensures var later, whole := Feed(Feed(p, a).1, b), Feed(p, a + b);
      && later.0 == whole.0
      && (|p.buffer| + |a| + |b| > MAX_BUFFER
          ==> later.0.Failed? && later.1.fields.errorCode == whole.1.fields.errorCode == 413
              && later.1.buffer == whole.1.buffer == "" && whole.1.fields.keepAlive == p.fields.keepAlive)
      && (|p.buffer| + |a| + |b| <= MAX_BUFFER ==> (later == whole <==> WrappedInFeed(p, a) == 0 || b == ""))
  {
    FeedValid(p, a);
    if |p.buffer| + |a| + |b| <= MAX_BUFFER {
      var q := Appended(p, a);
      AppendedTwice(p, a, b);
      SplitDrive(q, b);
      if WrappedTurns(q) > 0 && b != "" {
        GatheredDiffers(Drive(Appended(Drive(q).1, b)).1, Drive(Appended(q, b)).1, WrappedTurns(q), b);
      }
    }
  }

  lemma AppendedTwice(p: Parser, a: string, b: string)
    ensures Appended(Appended(p, a), b) == Appended(p, a + b)
  {
    assert p.buffer + (a + b) == p.buffer + a + b;
  }

  /** The calls of feed_data for the pieces of a stream: the answer of the last one, and the state it leaves. */
  function FeedPieces(p: Parser, pieces: seq<string>): (r: (Verdict, Parser))
    requires Valid(p)
    ensures Valid(r.1)
  {
    if pieces == [] then (Again, p)
    else
      var before := FeedPieces(p, pieces[..|pieces| - 1]).1;
      FeedValid(before, pieces[|pieces| - 1]);
      Feed(before, pieces[|pieces| - 1])
  }

  /** Given x, the parser asks for more, and no data was taken behind a rejected size line. */
  predicate AsksForMore(p: Parser, x: string)
    requires Valid(p)
  {
    Feed(p, x).0.Again? && WrappedInFeed(p, x) == 0
  }

  /** Every cut falls where the parser asks for more. */
  predicate CutsWait(p: Parser, pieces: seq<string>)
    requires Valid(p)
  {
    forall n :: 0 < n < |pieces| ==> AsksForMore(p, Flatten(pieces[..n]))
  }

  /** Any such cutting of at most 10 MiB is equivalent to one piece, and all its pieces but the last answer AGAIN. */
  lemma {:induction false} AnyCutting(p: Parser, pieces: seq<string>)
    requires Valid(p) && pieces != [] && CutsWait(p, pieces) && |p.buffer| + |Flatten(pieces)| <= MAX_BUFFER
    ensures FeedPieces(p, pieces) == Feed(p, Flatten(pieces))
    ensures forall n :: 0 < n < |pieces| ==> FeedPieces(p, pieces[..n]).0.Again?
    decreases |pieces|
  {
    hide Feed, AsksForMore;
    var k := |pieces| - 1;
    var init, last := pieces[..k], pieces[k];
    FlattenLast(pieces);
    if k == 0 {
      assert Flatten(pieces) == last;
    } else {
      forall n | 0 < n < k ensures init[..n] == pieces[..n] {
      }
      AnyCutting(p, init);
      OneMorePiece(p, Flatten(init), last);
      forall n | 0 < n < |pieces| ensures FeedPieces(p, pieces[..n]).0.Again? {
        if n < k {
          assert pieces[..n] == init[..n];
        }
      }
    }
  }

  lemma OneMorePiece(p: Parser, x: string, last: string)
    requires Valid(p) && AsksForMore(p, x) && |p.buffer| + |x| + |last| <= MAX_BUFFER
    ensures Valid(Feed(p, x).1) && Feed(p, x).0.Again? && Feed(Feed(p, x).1, last) == Feed(p, x + last)
  {
    SplitFeed(p, x, last);
  }

  /** The parser stands between two chunks of a chunked body. */
  predicate BetweenChunks(p: Parser) {
    && Valid(p) && p.phase.Body? && p.startLine.value.verb == "POST" && p.fields.transferEncodingExists
    && p.processed == |p.buffer| && SaysChunked(p.decoder.headers) && p.decoder.headers != ""
    && p.decoder.chunkBuffer == "" && p.decoder.readingSize
  }

  /** The family of inputs on which cutting does matter: any size line that is rejected, with one more byte behind
      it. */
  lemma RejectedSizeSplits(p: Parser, line: string, c: char, b: string)
    requires BetweenChunks(p) && !Accepted(line) && '\r' !in line && b != ""
    requires |p.buffer| + |line| + 3 + |b| <= MAX_BUFFER
    ensures var a := line + (CRLF + [c]);
      && Feed(p, a).0.Again? && Valid(Feed(p, a).1)
      && Feed(Feed(p, a).1, b) != Feed(p, a + b)
  {
    var a := line + (CRLF + [c]);
    var q := Appended(p, a);
    assert q.buffer[q.processed..] == a;
    var d := p.decoder.(chunkBuffer := a);
    assert Receive(p.decoder, a) == d by {
      assert "" + a == a;
    }
    RejectedSizeWraps(d, line, c);
    DriveBody(q);
    SplitFeed(p, a, b);
  }

  lemma RejectedSizeWraps(d: Decoder, line: string, c: char)
    requires d.readingSize && d.chunkBuffer == line + (CRLF + [c]) && !Accepted(line) && '\r' !in line
    ensures !DecodeChunks(d).done && WrappedSteps(d) == 1
  {
    FindLineEnd(line, [c]);
    var d1 := TakeLine(d);
    assert d1.chunkSize == TWO_64 - 1 && d1.chunkBuffer == [c];
    UnfoldLine(d);
    UnfoldData(d1);
    assert TakeData(d1).chunkBuffer == "";
  }
}

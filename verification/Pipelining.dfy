/** Several requests on one connection: what reset hands on, and that no byte is lost or read twice. */
module Pipelining {
  import opened Text
  import opened Headers
  import opened Parser
  import opened SplitIndependence

  /** What a complete parser hands to the handler. */
  datatype Request = Request(line: Option<RequestLine>, headers: Map, body: string)

  function RequestOf(p: Parser): Request {
    Request(p.startLine, p.fields.headers, p.body)
  }

  /** Bytes a fresh parser takes for exactly one request that is not chunked. */
  predicate Whole(r: string) {
    var (v, p) := Feed(FRESH_PARSER, r);
    v.Ok? && p.pos == |r| && !p.fields.transferEncodingExists
  }

  /** After reset the parser is a fresh one that has been given the unread bytes. */
  lemma ResetIsFresh(p: Parser, data: string)
    requires Valid(p) && p.pos <= |p.buffer|
    ensures Valid(Reset(p))
    ensures Feed(Reset(p), data) == Feed(FRESH_PARSER, p.buffer[p.pos..] + data)
  {
    var rest := p.buffer[p.pos..];
    assert Reset(p).buffer == rest;
    assert "" + (rest + data) == rest + data;
    assert Appended(Reset(p), data) == Appended(FRESH_PARSER, rest + data);
  }

  /** A finished turn of a request that is not chunked, with more bytes behind it. */
  lemma BodyMore(p: Parser, b: string)
    requires Valid(p) && p.phase.Body? && |p.buffer| + |b| <= MAX_BUFFER && Turn(p).ok
        && !p.fields.transferEncodingExists
    requires !LowerCaseAt(b, 0)
    ensures Turn(Appended(p, b)) == Turn(p).(parser := Appended(Turn(p).parser, b))
  {
    var end := p.pos + p.fields.expected;
    if end <= |p.buffer| {
      assert (p.buffer + b)[p.pos..end] == p.buffer[p.pos..end];
      assert end < |p.buffer| ==> (p.buffer + b)[end] == p.buffer[end];
      assert end == |p.buffer| && b != "" ==> (p.buffer + b)[end] == b[0];
    }
  }

  /** A request that is complete stays the same request when bytes follow that do not start in lower case. */
  lemma {:induction false} CompleteMore(p: Parser, b: string)
    requires Valid(p) && |p.buffer| + |b| <= MAX_BUFFER && !LowerCaseAt(b, 0)
    requires Drive(p).0.Ok? && !Drive(p).1.fields.transferEncodingExists
    ensures Drive(Appended(p, b)) == (Ok, Appended(Drive(p).1, b))
    decreases Rank(p.phase)
  {
    if Rank(p.phase) > 0 {
      TurnValid(p);
      var q := Turn(p).parser;
      assert Turn(p).ok;
      if p.phase.Body? {
        assert Drive(q) == (Ok, q);
        BodyMore(p, b);
      } else {
        TurnMore(p, b);
        CompleteMore(q, b);
      }
    }
  }

  /** The first byte of a request is that of its method, an upper-case letter. */
  lemma WholeStartsUpper(r: string)
    requires Whole(r)
    ensures r != "" && !LowerCaseAt(r, 0)
  {
    var p := Appended(FRESH_PARSER, r);
    assert p.buffer == r;
    TurnValid(p);
    var crlf := Find(r, CRLF, 0);
    assert crlf.Some?;
    FirstWord(r[..crlf.value]);
  }

  lemma FirstWord(line: string)
    requires CheckLine(line).GoodLine?
    ensures line != "" && !('a' <= line[0] <= 'z')
  {
    var words, i := Split(line, ' '), FindChar(line, ' ');
    assert words[0] == line[..if i.Some? then i.value else |line|];
    assert words[0][0] == line[0];
  }

  /** A whole request followed by anything that can follow it is parsed as before; what follows is left unread. */
  lemma WholeThenMore(r: string, rest: string)
    requires Whole(r) && |r| + |rest| <= MAX_BUFFER && !LowerCaseAt(rest, 0)
    ensures Feed(FRESH_PARSER, r + rest) == (Ok, Feed(FRESH_PARSER, r).1.(buffer := r + rest))
  {
    var p := Appended(FRESH_PARSER, r);
    assert p.buffer == r;
    CompleteMore(p, rest);
    DriveValid(p);
    AppendedTwice(FRESH_PARSER, r, rest);
  }

  /** feed_data and reset in turn, n times: the requests, and the parser that is left. */
  function Serve(p: Parser, data: string, n: nat): (seq<Request>, Parser)
    requires Valid(p)
    decreases n
  {
    if n == 0 then ([], p)
    else
      var (v, q) := Feed(p, data);
      FeedValid(p, data);
      if !v.Ok? then ([], q)
      else
        var (rs, last) := Serve(Reset(q), "", n - 1);
        ([RequestOf(q)] + rs, last)
  }

  /** What each of the requests is on its own. */
  function Requests(rs: seq<string>): seq<Request> {
    if rs == [] then [] else [RequestOf(Feed(FRESH_PARSER, rs[0]).1)] + Requests(rs[1..])
  }

  predicate AllWhole(rs: seq<string>) {
    forall i :: 0 <= i < |rs| ==> Whole(rs[i])
  }

  lemma {:induction false} FlattenStartsUpper(rs: seq<string>)
    requires AllWhole(rs)
    ensures !LowerCaseAt(Flatten(rs), 0)
    ensures Flatten(rs) == "" <==> rs == []
  {
    if rs != [] {
      WholeStartsUpper(rs[0]);
    }
  }

  /** Section 6.3.2 of RFC 7230: whole requests sent back to back, at most 10 MiB of them, are parsed one after the
      other, each as if it had come alone, and nothing is left. */
  lemma {:induction false} Pipelined(rs: seq<string>)
    requires rs != [] && AllWhole(rs) && |Flatten(rs)| <= MAX_BUFFER
    ensures Serve(FRESH_PARSER, Flatten(rs), |rs|) == (Requests(rs), FRESH_PARSER)
    decreases rs
  {
    var first, rest := rs[0], Flatten(rs[1..]);
    FlattenStartsUpper(rs[1..]);
    WholeThenMore(first, rest);
    var q := Feed(FRESH_PARSER, first + rest).1;
    FeedValid(FRESH_PARSER, first + rest);
    assert (first + rest)[|first|..] == rest;
    if rest == "" {
      assert Reset(q) == FRESH_PARSER;
    }
    if |rs| > 1 {
      Pipelined(rs[1..]);
      ServeReset(q, |rs| - 1);
    } else {
      assert rs[1..] == [];
    }
  }

  /** Serving from the unread bytes of a complete parser is serving them from the start. */
  lemma ServeReset(q: Parser, n: nat)
    requires Valid(q) && q.pos <= |q.buffer| && n > 0
    ensures Serve(Reset(q), "", n) == Serve(FRESH_PARSER, q.buffer[q.pos..], n)
  {
    ResetIsFresh(q, "");
    assert q.buffer[q.pos..] + "" == q.buffer[q.pos..];
  }

  /** What the event loop does to a parser. */
  datatype Call = Fed(data: string) | WasReset

  /** The parser after the calls, and the bytes it has consumed: at each reset, everything before buffer_pos. */
  function Run(calls: seq<Call>): (Parser, string)
    ensures Valid(Run(calls).0)
  {
    if calls == [] then (FRESH_PARSER, "")
    else
      var (p, consumed) := Run(calls[..|calls| - 1]);
      match calls[|calls| - 1]
      case Fed(data) => (FeedValid(p, data); (Feed(p, data).1, consumed))
      case WasReset => (Reset(p), consumed + p.buffer[..Min(p.pos, |p.buffer|)])
  }

  function AllFed(calls: seq<Call>): string {
    if calls == [] then ""
    else
      var before := AllFed(calls[..|calls| - 1]);
      var last := calls[|calls| - 1];
      if last.Fed? then before + last.data else before
  }

  ghost predicate NeverFailed(calls: seq<Call>) {
    forall n :: 0 <= n <= |calls| ==> !Run(calls[..n]).0.phase.Error?
  }

  /** Every byte fed is either consumed, once and in order, or still in the buffer. */
  lemma {:induction false} BytesConserved(calls: seq<Call>)
    requires NeverFailed(calls)
    ensures AllFed(calls) == Run(calls).1 + Run(calls).0.buffer
    decreases |calls|
  {
    hide Feed;
    if calls == [] {
      assert "" + "" == "";
    } else {
      var k := |calls| - 1;
      var before := calls[..k];
      forall n | 0 <= n <= k ensures !Run(before[..n]).0.phase.Error? {
        assert before[..n] == calls[..n];
      }
      BytesConserved(before);
      assert calls[..k + 1] == calls && before[..k] == before;
      var (p, consumed) := Run(before);
      match calls[k]
      case Fed(data) =>
        FeedValid(p, data);
        assert Run(calls) == (Feed(p, data).1, consumed);
        AppendBehind(consumed, p.buffer, data);
      case WasReset =>
        MoveForward(consumed, p.buffer, p.pos);
    }
  }

  lemma AppendBehind(a: string, b: string, c: string)
    ensures a + b + c == a + (b + c)
  {
  }

  lemma MoveForward(consumed: string, buffer: string, n: nat)
    requires n <= |buffer|
    ensures consumed + buffer[..n] + buffer[n..] == consumed + buffer
    ensures n == |buffer| ==> buffer[n..] == ""
  {
  }

  /** The requests the calls have completed. */
  function Parsed(calls: seq<Call>): seq<Request> {
    if calls == [] then []
    else
      var before := calls[..|calls| - 1];
      var p := Run(calls).0;
      if calls[|calls| - 1].Fed? && p.phase.Complete? then Parsed(before) + [RequestOf(p)] else Parsed(before)
  }

  /** One more call. */
  lemma RunStep(calls: seq<Call>, call: Call)
    ensures var p := Run(calls).0; var q := Run(calls + [call]).0;
      && Valid(p)
      && q == (if call.Fed? then Feed(p, call.data).1 else Reset(p))
      && Run(calls + [call]).1
          == (if call.Fed? then Run(calls).1 else Run(calls).1 + p.buffer[..Min(p.pos, |p.buffer|)])
      && AllFed(calls + [call]) == (if call.Fed? then AllFed(calls) + call.data else AllFed(calls))
      && Parsed(calls + [call])
          == (if call.Fed? && q.phase.Complete? then Parsed(calls) + [RequestOf(q)] else Parsed(calls))
  {
    var more := calls + [call];
    assert more[..|more| - 1] == calls && more[|more| - 1] == call;
    hide Feed;
  }

  /** The event loop's discipline: bytes are fed while the parser wants some, and it is reset when it is complete. */
  predicate Disciplined(calls: seq<Call>) {
    calls == [] ||
    var before, last := calls[..|calls| - 1], calls[|calls| - 1];
    Disciplined(before) && if last.Fed? then Rank(Run(before).0.phase) > 0 else Run(before).0.phase.Complete?
  }

  lemma DisciplinedStep(calls: seq<Call>, call: Call)
    ensures Disciplined(calls + [call]) <==>
      Disciplined(calls) && if call.Fed? then Rank(Run(calls).0.phase) > 0 else Run(calls).0.phase.Complete?
  {
    var more := calls + [call];
    assert more[..|more| - 1] == calls && more[|more| - 1] == call;
    hide Run;
  }
}

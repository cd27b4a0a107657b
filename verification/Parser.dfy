/** ParsingRequest: the incremental request parser, as a function on its state and as the object that updates it. */
module Parser {
  import opened Text
  import opened Uri
  import opened Headers
  import opened Checks
  import opened ChunkDecoder

  datatype Phase = StartLine | HeaderBlock | Body | Complete | Error

  datatype RequestLine = RequestLine(verb: string, uri: string, version: string)

  /** PARSE_OK, PARSE_AGAIN and PARSE_ERROR_RESULT. */
  datatype Verdict = Ok | Again | Failed

  datatype Parser = Parser(
    phase: Phase, startLine: Option<RequestLine>, fields: Fields, buffer: string, pos: nat, body: string,
    processed: nat, accumulated: string, decoder: Decoder)

  const FRESH_PARSER := Parser(StartLine, None, FRESH_FIELDS, "", 0, "", 0, "", FRESH)

  const MAX_BUFFER := 10 * 1024 * 1024
  const MAX_HEADER := 8192

  /** One of the parse_* functions: whether it answered true, and the state it left. */
  datatype Outcome = Outcome(ok: bool, parser: Parser)

  function Fails(p: Parser, code: int, closes: bool): Outcome {
    Outcome(false, p.(phase := Error, fields := Fail(p.fields, code, closes).fields))
  }

  /** The n-th of the fields getline cuts at spaces; a missing one is empty. */
  function Word(line: string, n: nat): string {
    var words := Split(line, ' ');
    if n < |words| then words[n] else ""
  }

  predicate NotImplemented(verb: string) {
    verb == "PUT" || verb == "PATCH" || verb == "OPTIONS" || verb == "TRACE" || verb == "CONNECT" || verb == "HEAD"
  }

  /** checkMethod, checkURI and checkVersion: the accepted line, or the error. */
  datatype LineCheck = GoodLine(line: RequestLine) | BadLine(code: int, closes: bool)

  function CheckLine(line: string): LineCheck {
    var verb, uri, version := Word(line, 0), CheckUri(Word(line, 1)), Word(line, 2);
    if verb == "" then BadLine(400, true)
    else if NotImplemented(verb) then BadLine(501, true)
    else if verb != "GET" && verb != "POST" && verb != "DELETE" then BadLine(400, true)
    else if uri.Rejected? then BadLine(uri.code, uri.closes)
    else if version != "HTTP/1.1" then BadLine(400, true)
    else GoodLine(RequestLine(verb, uri.uri, version))
  }

  function ParseStartLine(p: Parser): Outcome
    requires p.pos <= |p.buffer|
  {
    var crlf := Find(p.buffer, CRLF, p.pos);
    if crlf.None? then Outcome(false, p)
    else
      var q := p.(pos := crlf.value + 2);
      match CheckLine(p.buffer[p.pos..crlf.value])
      case BadLine(code, closes) => Fails(q, code, closes)
      case GoodLine(line) => Outcome(true, q.(startLine := Some(line)))
  }

  function ParseHeaders(p: Parser): Outcome
    requires p.pos <= |p.buffer|
  {
    var end := Find(p.buffer, CRLF2, p.pos);
    if end.None? then
      if |p.buffer| > MAX_HEADER then
        var e := Fails(p, 431, true);
        e.(parser := e.parser.(buffer := ""))
      else Outcome(false, p)
    else
      var c := CheckBlock(p.fields, p.buffer[p.pos..end.value]);
      Outcome(c.ok, p.(pos := end.value + 4, fields := c.fields, phase := if c.ok then p.phase else Error))
  }

  /** The chunked branch: the decoder gets everything from the first byte of the buffer on, headers included. */
  function ParseChunked(p: Parser): Outcome {
    if |p.buffer| <= p.processed then
      if p.decoder.complete then
        Outcome(true, p.(body := p.accumulated, pos := |p.buffer|, processed := 0, accumulated := ""))
      else Outcome(false, p)
    else
      Absorb(p, Decode(p.decoder, |p.accumulated|, p.buffer[p.processed..]))
  }

  /** What the parser does with the decoder's answer. */
  function Absorb(p: Parser, r: Progress): Outcome {
    var all := p.accumulated + r.out;
    if r.done then
      Outcome(true, p.(body := all, pos := |p.buffer|, processed := 0, accumulated := "", decoder := r.decoder))
    else Outcome(false, p.(processed := |p.buffer|, accumulated := all, decoder := r.decoder))
  }

  /** A byte behind the body that the code takes for a body that is too long. */
  predicate LowerCaseAt(s: string, i: nat) {
    i < |s| && 'a' <= s[i] <= 'z'
  }

  function ParseSized(p: Parser): Outcome
    requires p.pos <= |p.buffer|
  {
    var end := p.pos + p.fields.expected;
    if |p.buffer| < end then Outcome(false, p)
    else
      var q := p.(body := p.buffer[p.pos..end], pos := end);
      if LowerCaseAt(p.buffer, end) then Fails(q, 400, true) else Outcome(true, q)
  }

  function ParseBody(p: Parser): Outcome
    requires p.pos <= |p.buffer| && p.startLine.Some?
  {
    if p.startLine.value.verb != "POST" then Outcome(true, p)
    else if p.fields.transferEncodingExists then ParseChunked(p)
    else if p.fields.contentLengthExists then ParseSized(p)
    else Outcome(true, p)
  }

  /** What a parser that is in use satisfies. */
  predicate Valid(p: Parser) {
    && |p.buffer| <= MAX_BUFFER
    && (!p.phase.Error? ==> p.pos <= |p.buffer|)
    && (p.phase.HeaderBlock? || p.phase.Body? || p.phase.Complete? ==> p.startLine.Some?)
    && (p.phase.StartLine? || p.phase.HeaderBlock? ==> p.decoder == FRESH && p.processed == 0 && p.accumulated == "")
    && (p.phase.Body? ==> !p.decoder.complete && p.processed <= |p.buffer| && |p.decoder.chunkBuffer| <= p.processed)
  }

  function Rank(phase: Phase): nat {
    match phase
    case StartLine => 3
    case HeaderBlock => 2
    case Body => 1
    case Complete => 0
    case Error => 0
  }

  /** One turn of the while loop of feed_data: the function of the current phase, and the phase it moves to. */
  function Turn(p: Parser): Outcome
    requires Valid(p) && Rank(p.phase) > 0
  {
    match p.phase
    case StartLine =>
      var r := ParseStartLine(p);
      if r.ok then r.(parser := r.parser.(phase := HeaderBlock)) else r
    case HeaderBlock =>
      var r := ParseHeaders(p);
      if !r.ok then r
      else
        var next := if p.startLine.value.verb == "POST" || r.parser.fields.expected > 0 then Body else Complete;
        r.(parser := r.parser.(phase := next))
    case Body =>
      var r := ParseBody(p);
      if r.ok then r.(parser := r.parser.(phase := Complete)) else r
  }

  /** A turn keeps the invariant and brings the loop closer to its end, unless it waits for more bytes. */
  lemma TurnValid(p: Parser)
    requires Valid(p) && Rank(p.phase) > 0
    ensures var r := Turn(p);
      && Valid(r.parser)
      && (r.ok ==> Rank(r.parser.phase) < Rank(p.phase))
      && (!r.ok ==> r.parser.phase == p.phase || r.parser.phase.Error?)
      && (r.parser.phase.Error? || r.parser.buffer == p.buffer)
  {
    if p.phase.Body? && p.startLine.value.verb == "POST" && p.fields.transferEncodingExists
        && p.processed < |p.buffer| {
      var data := p.buffer[p.processed..];
      if !Decode(p.decoder, |p.accumulated|, data).done {
        DecodeKeeps(p.decoder, |p.accumulated|, data);
      }
    }
  }

  /** While the decoder waits it is not complete, and it holds no more bytes than it was given. */
  lemma DecodeKeeps(d: Decoder, n: nat, data: string)
    requires !Decode(d, n, data).done
    ensures Decode(d, n, data).decoder.complete == d.complete
    ensures |Decode(d, n, data).decoder.chunkBuffer| <= |d.chunkBuffer| + |data|
  {
    var d' := Receive(d, data);
    assert |d'.chunkBuffer| <= |d.chunkBuffer| + |data|;
    if d'.headers != "" {
      KeepsHeaders(d');
    }
  }

  /** The while loop of feed_data. */
  function Drive(p: Parser): (Verdict, Parser)
    requires Valid(p)
    decreases Rank(p.phase)
  {
    if p.phase.Complete? then (Ok, p)
    else if p.phase.Error? then (Failed, p)
    else
      var r := Turn(p);
      TurnValid(p);
      if r.ok then Drive(r.parser)
      else (if r.parser.phase.Error? then Failed else Again, r.parser)
  }

  function Appended(p: Parser, data: string): Parser {
    p.(buffer := p.buffer + data)
  }

  function TooLarge(p: Parser): Parser {
    Fails(p, 413, false).parser.(buffer := "")
  }

  /** feed_data. */
  function Feed(p: Parser, data: string): (Verdict, Parser)
    requires Valid(p)
  {
    if |p.buffer| + |data| > MAX_BUFFER then (Failed, TooLarge(p)) else Drive(Appended(p, data))
  }

  /** reset: everything starts anew but the bytes that were not read. */
  function Reset(p: Parser): Parser {
    FRESH_PARSER.(buffer := if p.pos < |p.buffer| then p.buffer[p.pos..] else "")
  }

  lemma {:induction false} DriveValid(p: Parser)
    requires Valid(p)
    ensures var (v, q) := Drive(p);
      && Valid(q)
      && (v.Ok? <==> q.phase.Complete?) && (v.Failed? <==> q.phase.Error?)
      && (v.Failed? || q.buffer == p.buffer)
    decreases Rank(p.phase)
  {
    if Rank(p.phase) > 0 {
      TurnValid(p);
      if Turn(p).ok {
        DriveValid(Turn(p).parser);
      }
    }
  }

  lemma FeedValid(p: Parser, data: string)
    requires Valid(p)
    ensures var (v, q) := Feed(p, data);
      && Valid(q)
      && (v.Ok? <==> q.phase.Complete?) && (v.Failed? <==> q.phase.Error?)
      && (v.Failed? || q.buffer == p.buffer + data)
  {
    if |p.buffer| + |data| <= MAX_BUFFER {
      DriveValid(Appended(p, data));
    }
  }

  /** Behind the headers the host is known. */
  predicate HasHost(p: Parser) {
    p.phase.Body? || p.phase.Complete? ==> "host" in p.fields.headers
  }

  lemma TurnHasHost(p: Parser)
    requires Valid(p) && Rank(p.phase) > 0 && HasHost(p)
    ensures HasHost(Turn(p).parser)
  {
    hide CheckBlock, CheckLine, Decode, Find;
    if p.phase.HeaderBlock? {
      var end := Find(p.buffer, CRLF2, p.pos);
      if end.Some? {
        AcceptedHasHost(p.fields, p.buffer[p.pos..end.value]);
      }
    }
  }

  /** No lookup the parser and its caller make with `at` can fail on a request that feed_data reports complete. */
  lemma {:induction false} DriveHasHost(p: Parser)
    requires Valid(p) && HasHost(p)
    ensures HasHost(Drive(p).1)
    decreases Rank(p.phase)
  {
    hide Turn;
    if Rank(p.phase) > 0 {
      TurnValid(p);
      TurnHasHost(p);
      if Turn(p).ok {
        DriveHasHost(Turn(p).parser);
      }
    }
  }

  lemma FeedHasHost(p: Parser, data: string)
    requires Valid(p) && HasHost(p)
    ensures HasHost(Feed(p, data).1)
    ensures Feed(p, data).0.Ok? ==> Feed(p, data).1.startLine.Some? && "host" in Feed(p, data).1.fields.headers
  {
    FeedValid(p, data);
    if |p.buffer| + |data| <= MAX_BUFFER {
      DriveHasHost(Appended(p, data));
    }
  }

  lemma ResetValid(p: Parser)
    requires Valid(p)
    ensures Valid(Reset(p))
  {
  }

  /** The object of the event loop: fields updated in place, and the decoder's statics as an object of its own. */
  class ParsingRequest {
    var currentState: Phase
    var startLine: Option<RequestLine>
    var fields: Fields
    var buffer: string
    var bufferPos: nat
    var bodyContent: string
    var chunkedLastProcessedSize: nat
    var chunkedAccumulatedData: string
    const decoder: ChunkDecoder

    function View(): Parser
      reads this, decoder
    {
      Parser(currentState, startLine, fields, buffer, bufferPos, bodyContent, chunkedLastProcessedSize,
             chunkedAccumulatedData, decoder.View())
    }

    constructor ()
      ensures View() == FRESH_PARSER && fresh(decoder)
    {
      currentState, startLine, fields, buffer, bufferPos := StartLine, None, FRESH_FIELDS, "", 0;
      bodyContent, chunkedLastProcessedSize, chunkedAccumulatedData := "", 0, "";
      decoder := new ChunkDecoder();
    }

    /** The tail every error shares. */
    method Error(code: int, closes: bool)
      modifies this
      ensures View() == Fails(old(View()), code, closes).parser
    {
      if closes {
        fields := fields.(keepAlive := false);
      }
      fields := fields.(errorCode := code);
      currentState := Phase.Error;
    }

    method ReadStartLine() returns (ok: bool)
      requires bufferPos <= |buffer|
      modifies this
      ensures Outcome(ok, View()) == ParseStartLine(old(View()))
    {
      var crlfPos := Find(buffer, CRLF, bufferPos);
      if crlfPos.None? {
        return false;
      }
      var line := buffer[bufferPos..crlfPos.value];
      bufferPos := crlfPos.value + 2;
      var verb, uri, version := Word(line, 0), Word(line, 1), Word(line, 2);
      if verb == "" {
        Error(400, true);
        return false;
      }
      if NotImplemented(verb) {
        Error(501, true);
        return false;
      }
      if verb != "GET" && verb != "POST" && verb != "DELETE" {
        Error(400, true);
        return false;
      }
      var checked := CheckUriLoop(uri);
      if checked.Rejected? {
        Error(checked.code, checked.closes);
        return false;
      }
      if version != "HTTP/1.1" {
        Error(400, true);
        return false;
      }
      startLine := Some(RequestLine(verb, checked.uri, version));
      return true;
    }

    method ReadHeaders() returns (ok: bool)
      requires bufferPos <= |buffer|
      modifies this
      ensures Outcome(ok, View()) == ParseHeaders(old(View()))
    {
      var doubleCrlf := Find(buffer, CRLF2, bufferPos);
      if doubleCrlf.None? {
        if |buffer| > MAX_HEADER {
          Error(431, true);
          buffer := "";
        }
        return false;
      }
      var block := buffer[bufferPos..doubleCrlf.value];
      bufferPos := doubleCrlf.value + 4;
      var headerMap := ReadBlockLoop(block, KEPT);
      if headerMap.None? {
        Error(400, true);
        return false;
      }
      fields := fields.(headers := headerMap.value);
      var c := CheckAllInTurn(fields);
      c := SetLength(c);
      fields := c.fields;
      if !c.ok {
        currentState := Phase.Error;
      }
      return c.ok;
    }

    method ReadBody() returns (ok: bool)
      requires bufferPos <= |buffer| && startLine.Some?
      modifies this, decoder
      ensures Outcome(ok, View()) == ParseBody(old(View()))
    {
      if startLine.value.verb != "POST" {
        return true;
      }
      if fields.transferEncodingExists {
        ok := ReadChunks();
      } else if fields.contentLengthExists {
        ok := ReadSized();
      } else {
        ok := true;
      }
    }

    method ReadChunks() returns (ok: bool)
      modifies this, decoder
      ensures Outcome(ok, View()) == ParseChunked(old(View()))
    {
      if |buffer| <= chunkedLastProcessedSize {
        if !decoder.complete {
          return false;
        }
      } else {
        var newData := buffer[chunkedLastProcessedSize..];
        ok, chunkedAccumulatedData := decoder.RefactorData(chunkedAccumulatedData, newData);
        if !ok {
          chunkedLastProcessedSize := |buffer|;
          return false;
        }
      }
      bodyContent := chunkedAccumulatedData;
      bufferPos := |buffer|;
      chunkedLastProcessedSize := 0;
      chunkedAccumulatedData := "";
      return true;
    }

    method ReadSized() returns (ok: bool)
      requires bufferPos <= |buffer|
      modifies this
      ensures Outcome(ok, View()) == ParseSized(old(View()))
    {
      var available := |buffer| - bufferPos;
      if available < fields.expected {
        return false;
      }
      bodyContent := buffer[bufferPos..bufferPos + fields.expected];
      bufferPos := bufferPos + fields.expected;
      if bufferPos < |buffer| {
        var firstByte := buffer[bufferPos];
        if 'a' <= firstByte <= 'z' {
          Error(400, true);
          return false;
        }
      }
      return true;
    }

    method FeedData(data: string) returns (v: Verdict)
      requires Valid(View())
      modifies this, decoder
      ensures (v, View()) == Feed(old(View()), data) && Valid(View())
    {
      if |buffer| + |data| > MAX_BUFFER {
        Error(413, false);
        buffer := "";
        return Failed;
      }
      buffer := buffer + data;
      ghost var p := View();
      while currentState != Complete && currentState != Phase.Error
        invariant Valid(View()) && Drive(View()) == Drive(p)
        decreases Rank(currentState)
      {
        TurnValid(View());
        var again := TakeTurn();
        if again {
          return Again;
        }
      }
      v := if currentState == Phase.Error then Failed else Ok;
    }

    /** The switch in the loop: true when the call must return PARSE_AGAIN. */
    method TakeTurn() returns (again: bool)
      requires Valid(View()) && Rank(currentState) > 0
      modifies this, decoder
      ensures View() == Turn(old(View())).parser
      ensures again <==> !Turn(old(View())).ok && !currentState.Error?
    {
      var ok;
      match currentState {
        case StartLine =>
          ok := ReadStartLine();
          if ok {
            currentState := HeaderBlock;
          }
        case HeaderBlock =>
          ok := ReadHeaders();
          if ok {
            currentState := if startLine.value.verb == "POST" || fields.expected > 0 then Body else Complete;
          }
        case Body =>
          ok := ReadBody();
          if ok {
            currentState := Complete;
          }
      }
      again := !ok && currentState != Phase.Error;
    }

    method ResetParser()
      modifies this, decoder
      ensures View() == Reset(old(View()))
    {
      var leftoverData := "";
      if bufferPos < |buffer| {
        leftoverData := buffer[bufferPos..];
      }
      currentState, startLine, fields, bufferPos := StartLine, None, FRESH_FIELDS, 0;
      bodyContent, chunkedLastProcessedSize, chunkedAccumulatedData := "", 0, "";
      buffer := leftoverData;
      decoder.Reset();
    }
  }
}

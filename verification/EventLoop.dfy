/** Servers::epollFds without CGI: the maps keyed by client descriptor, the armed directions, the partial responses. */
module EventLoop {
  import opened Text
  import opened Parser
  import opened Pipelining
  import opened Stream
  import opened PrintedStreams
  import opened Closing

  datatype Direction = In | Out

  /** struct Client. */
  datatype Client = Client(response: string, readyToRespond: bool)

  /** The fields of CClient the loop looks at. */
  datatype ClientData = ClientData(nameMethod: string, initialized: bool, chunkedSending: bool, shouldClose: bool,
      bytesSent: nat)

  const FRESH_CLIENT := Client("", false)
  const FRESH_DATA := ClientData("", false, false, false, 0)

  /** What was sent for a request, or because the parser had failed. */
  datatype Answer = Answered(request: Request, response: string) | Refused(response: string)

  /** What has happened on a connection since it was accepted. */
  datatype History = History(calls: seq<Call>, received: string, answers: seq<Answer>, wire: string)

  const FRESH_HISTORY := History([], "", [], "")

  /** All the loop knows of one descriptor. */
  datatype Connection = Connection(
    client: Client, data: ClientData, armed: Direction, parser: Option<Parser>, history: History)

  const ACCEPTED := Connection(FRESH_CLIENT, FRESH_DATA, In, Some(FRESH_PARSER), FRESH_HISTORY)

  datatype Ending = Normal | PeerGone | SendFailed | NoParser

  datatype After = Open(connection: Connection) | Closed(how: Ending, history: History, pending: string)

  /** What send answers. */
  datatype Sending = Sent(n: nat) | WouldBlock | SendError

  /** The response HandleAllMethod computes, and whether it set chunkedSending. */
  datatype Handled = Handled(response: string, chunked: bool)

  /** The parser has been given bytes. */
  function Received(c: Connection, p: Parser, bytes: string): Connection {
    var h := c.history.(calls := c.history.calls + [Fed(bytes)], received := c.history.received + bytes);
    c.(parser := Some(p), history := h)
  }

  /** PARSE_OK: handleMethod fills in the client's data the first time, and EPOLLOUT is armed. */
  function Ready(c: Connection): Connection {
    var line := if c.parser.Some? then c.parser.value.startLine else None;
    var verb := if line.Some? then line.value.verb else "";
    var data := if c.data.initialized then c.data else ClientData(verb, true, false, false, 0);
    c.(client := c.client.(readyToRespond := true), data := data, armed := Out)
  }

  /** PARSE_ERROR_RESULT: the error page is to be sent, and the parser is deleted. */
  function Refuse(c: Connection, errorPage: string): Connection {
    var h := c.history.(answers := c.history.answers + [Refused(errorPage)]);
    Connection(Client(errorPage, true), c.data.(shouldClose := true), Out, None, h)
  }

  /** EPOLLIN: recv has answered `bytes`, none of them when the peer has closed. `errorPage` is what GenerateResErr
      makes. */
  function Readable(c: Connection, bytes: string, errorPage: string): After
    requires c.parser.Some? ==> Valid(c.parser.value)
  {
    if bytes == "" then Closed(PeerGone, c.history, c.client.response)
    else if c.parser.None? then Closed(NoParser, c.history, c.client.response)
    else
      var (v, p) := Feed(c.parser.value, bytes);
      var fed := Received(c, p, bytes);
      match v
      case Again => Open(fed)
      case Ok => Open(Ready(fed))
      case Failed => Open(Refuse(fed, errorPage))
  }

  /** The handler runs when there is no response yet. */
  predicate NeedsHandler(c: Connection) {
    c.client.response == "" && (c.data.nameMethod == "GET" ==> !c.data.chunkedSending)
  }

  function Handle(c: Connection, handled: Handled): Connection
    requires c.parser.Some?
  {
    var h := c.history;
    c.(client := c.client.(response := handled.response),
       data := c.data.(chunkedSending := handled.chunked),
       history := h.(answers := h.answers + [Answered(RequestOf(c.parser.value), handled.response)]))
  }

  /** The first n bytes of the response are on the wire. */
  function Advance(c: Connection, n: nat): Connection
    requires n <= |c.client.response|
  {
    c.(client := c.client.(response := c.client.response[n..]),
       data := c.data.(bytesSent := c.data.bytesSent + n),
       history := c.history.(wire := c.history.wire + c.client.response[..n]))
  }

  predicate ShouldClose(c: Connection) {
    c.data.shouldClose || (c.parser.Some? && !c.parser.value.fields.keepAlive)
  }

  /** Once the response is sent: close, or start over for the next request. */
  function Finish(c: Connection): After {
    if c.client.response != "" then Open(c)
    else if ShouldClose(c) then Closed(Normal, c.history, "")
    else
      var parser := if c.parser.Some? then Some(Reset(c.parser.value)) else None;
      var h := if c.parser.Some? then c.history.(calls := c.history.calls + [WasReset]) else c.history;
      Open(Connection(c.client.(readyToRespond := false), FRESH_DATA, In, parser, h))
  }

  /** EPOLLOUT. A failed send is ignored for GET and closes the connection otherwise. */
  function Writable(c: Connection, handled: Handled, sending: Sending): After
    requires NeedsHandler(c) ==> c.parser.Some?
    requires sending.Sent? ==> sending.n <= |(if NeedsHandler(c) then Handle(c, handled) else c).client.response|
  {
    var c' := if NeedsHandler(c) then Handle(c, handled) else c;
    match sending
    case Sent(n) => Finish(Advance(c', n))
    case WouldBlock => if c.data.nameMethod == "GET" then Finish(c') else Open(c')
    case SendError => if c.data.nameMethod == "GET" then Finish(c')
        else Closed(SendFailed, c'.history, c'.client.response)
  }

  /** All responses, one after the other. */
  function Promised(answers: seq<Answer>): string {
    if answers == [] then "" else Promised(answers[..|answers| - 1]) + answers[|answers| - 1].response
  }

  /** The requests the handler has been run for, in order. */
  function Served(answers: seq<Answer>): seq<Request> {
    if answers == [] then []
    else
      var before, last := Served(answers[..|answers| - 1]), answers[|answers| - 1];
      if last.Answered? then before + [last.request] else before
  }

  /** The error page is the last answer, if it is one. */
  predicate WasRefused(answers: seq<Answer>) {
    answers != [] && answers[|answers| - 1].Refused?
  }

  lemma AnswersStep(answers: seq<Answer>, a: Answer)
    ensures Promised(answers + [a]) == Promised(answers) + a.response
    ensures WasRefused(answers + [a]) <==> a.Refused?
    ensures Served(answers + [a]) == if a.Answered? then Served(answers) + [a.request] else Served(answers)
  {
    var more := answers + [a];
    assert more[..|more| - 1] == answers && more[|more| - 1] == a;
  }

  /** Delivery: the wire and the pending bytes are the promised responses; the bytes received are those the parser was
      fed; its calls explain its state, and what was received is what it has consumed and what it still holds. */
  predicate Faithful(c: Connection) {
    && c.history.wire + c.client.response == Promised(c.history.answers)
    && c.history.received == AllFed(c.history.calls) && Disciplined(c.history.calls)
    && (c.parser.None? ==> Run(c.history.calls).0.phase.Error?)
    && (WasRefused(c.history.answers) <==> Run(c.history.calls).0.phase.Error?)
    && (c.parser.Some? ==>
          && c.parser.value == Run(c.history.calls).0 && HasHost(c.parser.value) && Told(c.parser.value)
          && c.history.received == Run(c.history.calls).1 + c.parser.value.buffer)
  }

  function LastParsed(calls: seq<Call>): Option<Request> {
    var parsed := Parsed(calls);
    if parsed == [] then None else Some(parsed[|parsed| - 1])
  }

  /** The loop waits for more of a request: all parsed requests are served and all answers sent. */
  predicate Reading(c: Connection) {
    && c.armed.In? && c.client == FRESH_CLIENT && c.data == FRESH_DATA
    && c.parser.Some? && Valid(c.parser.value) && Rank(c.parser.value.phase) > 0
    && Served(c.history.answers) == Parsed(c.history.calls) && NoneSaysClose(Blocks(c.history.calls))
  }

  /** A parsed request waits for its response to be computed, or to be sent. */
  predicate Responding(c: Connection) {
    && c.armed.Out? && c.client.readyToRespond
    && c.parser.Some? && Valid(c.parser.value) && c.parser.value.phase.Complete?
    && c.data.initialized && !c.data.shouldClose && c.data.nameMethod == c.parser.value.startLine.value.verb
    && LastParsed(c.history.calls) == Some(RequestOf(c.parser.value))
    && NoneBefore(Blocks(c.history.calls))
        && (c.parser.value.fields.keepAlive <==> !LastSaysClose(Blocks(c.history.calls)))
    && if c.client.response == "" then
         !c.data.chunkedSending && Served(c.history.answers) + [RequestOf(c.parser.value)] == Parsed(c.history.calls)
       else Served(c.history.answers) == Parsed(c.history.calls)
  }

  /** The parser has failed and is gone: the error page is being sent, and then the connection is closed. */
  predicate Refusing(c: Connection) {
    && c.armed.Out? && c.client.readyToRespond && c.client.response != ""
    && c.parser.None? && c.data.shouldClose && c.data.nameMethod != "GET" && WasRefused(c.history.answers)
    && Served(c.history.answers) == Parsed(c.history.calls) && NoneSaysClose(Blocks(c.history.calls))
  }

  predicate Consistent(c: Connection) {
    Faithful(c) && (Reading(c) || Responding(c) || Refusing(c))
  }

  /** After its last answer a connection is closed when it was refused, or when the last request said so, and no earlier
      request did. */
  predicate ClosedRightly(how: Ending, h: History) {
    var blocks := Blocks(h.calls);
    && (NoneSaysClose(blocks) || NoneBefore(blocks))
    && (how.Normal? ==> if WasRefused(h.answers) then NoneSaysClose(blocks) else LastSaysClose(blocks))
    && (how.PeerGone? ==> NoneSaysClose(blocks) && !WasRefused(h.answers))
  }

  /** What is left of a connection that was closed. A normal close, and the peer's, leave nothing unsent. */
  predicate ClosedWell(a: After)
    requires a.Closed?
  {
    && a.history.wire + a.pending == Promised(a.history.answers)
    && a.history.received == AllFed(a.history.calls) && Disciplined(a.history.calls)
    && Served(a.history.answers) == Parsed(a.history.calls)
    && (WasRefused(a.history.answers) <==> Run(a.history.calls).0.phase.Error?)
    && !a.how.NoParser? && (a.how.Normal? || a.how.PeerGone? ==> a.pending == "") && ClosedRightly(a.how, a.history)
  }

  predicate Well(a: After) {
    if a.Open? then Consistent(a.connection) else ClosedWell(a)
  }

  lemma AcceptedIsConsistent()
    ensures Consistent(ACCEPTED)
  {
  }

  /** What the calls say after one more feed. */
  lemma FedKeeps(calls: seq<Call>, p: Parser, bytes: string)
    requires p == Run(calls).0 && HasHost(p) && Told(p) && Disciplined(calls) && Rank(p.phase) > 0
    requires AllFed(calls) == Run(calls).1 + p.buffer
    ensures var more := calls + [Fed(bytes)]; var (v, q) := Feed(p, bytes);
      && AllFed(more) == AllFed(calls) + bytes && Disciplined(more) && Run(more).0 == q && HasHost(q) && Valid(q)
      && (v.Ok? <==> q.phase.Complete?) && (v.Failed? <==> q.phase.Error?)
      && (!v.Failed? ==> AllFed(more) == Run(more).1 + q.buffer)
      && (v.Ok? ==> q.startLine.Some?)
      && Parsed(more) == (if v.Ok? then Parsed(calls) + [RequestOf(q)] else Parsed(calls))
      && (v.Ok? ==> LastParsed(more) == Some(RequestOf(q)))
  {
    hide Feed, Run, AllFed, Parsed, Disciplined, RequestOf, Told;
    RunStep(calls, Fed(bytes));
    FeedValid(p, bytes);
    FeedHasHost(p, bytes);
    AppendBehind(Run(calls).1, p.buffer, bytes);
    DisciplinedStep(calls, Fed(bytes));
  }

  /** And what the header blocks say. */
  lemma FedTells(calls: seq<Call>, p: Parser, bytes: string)
    requires p == Run(calls).0 && Told(p) && NoneSaysClose(Blocks(calls))
    ensures var more := calls + [Fed(bytes)]; var (v, q) := Feed(p, bytes);
      && Told(q)
      && (v.Ok? ==> NoneBefore(Blocks(more)) && (q.fields.keepAlive <==> !LastSaysClose(Blocks(more))))
      && (!v.Ok? ==> NoneSaysClose(Blocks(more)))
  {
    hide Feed, Run, Parsed, NoneSaysClose, NoneBefore, LastSaysClose, Blocks, HeadBlock, BlockSaysClose, HasHead;
    RunStep(calls, Fed(bytes));
    BlocksStep(calls, Fed(bytes));
    FeedValid(p, bytes);
    FeedTells(p, bytes);
    OneMoreBlock(Blocks(calls), HeadBlock(Feed(p, bytes).1.buffer));
  }

  lemma ReadableKeeps(c: Connection, bytes: string, errorPage: string)
    requires Consistent(c) && c.armed.In? && errorPage != ""
    ensures Well(Readable(c, bytes, errorPage))
  {
    hide Feed, AllFed, Promised, Served, Parsed, Disciplined, Run, HasHost, RequestOf;
    hide Told, NoneSaysClose, NoneBefore, LastSaysClose, Blocks;
    assert c.history.wire + "" == c.history.wire;
    if bytes != "" {
      FedTells(c.history.calls, c.parser.value, bytes);
      FedKeeps(c.history.calls, c.parser.value, bytes);
      AnswersStep(c.history.answers, Refused(errorPage));
      var after := Readable(c, bytes, errorPage).connection;
      match Feed(c.parser.value, bytes).0
      case Again => assert Faithful(after) && Reading(after);
      case Ok => assert Faithful(after) && Responding(after);
      case Failed => assert Faithful(after) && Refusing(after);
    }
  }

  lemma HandleKeeps(c: Connection, handled: Handled)
    requires Consistent(c) && NeedsHandler(c) && c.armed.Out? && handled.response != ""
    ensures c.parser.Some? && Consistent(Handle(c, handled))
  {
    AnswersStep(c.history.answers, Answered(RequestOf(c.parser.value), handled.response));
    assert c.history.wire + "" == c.history.wire;
  }

  lemma FinishKeeps(c: Connection, n: nat)
    requires Consistent(c) && c.armed.Out? && c.client.response != "" && n <= |c.client.response|
    ensures Well(Finish(Advance(c, n)))
  {
    hide NoneSaysClose, NoneBefore, LastSaysClose, Blocks, Told, Promised, Served, Parsed, AllFed, RequestOf,
        Disciplined, Run, WasRefused;
    var rest := c.client.response[n..];
    assert c.history.wire + c.client.response[..n] + rest == c.history.wire + c.client.response;
    assert c.history.wire + c.client.response[..n] + "" == c.history.wire + c.client.response[..n];
    if c.parser.Some? {
      RespondedBlocks(c);
      RunStep(c.history.calls, WasReset);
      BlocksStep(c.history.calls, WasReset);
      DisciplinedStep(c.history.calls, WasReset);
      ResetValid(c.parser.value);
      ResetTells(c.parser.value);
      if c.parser.value.phase.Complete? {
        MoveForward(Run(c.history.calls).1, c.parser.value.buffer, c.parser.value.pos);
      }
    }
  }

  /** A response is kept, or not, as the last block says. */
  lemma RespondedBlocks(c: Connection)
    requires Responding(c)
    ensures c.parser.value.fields.keepAlive ==> NoneSaysClose(Blocks(c.history.calls))
    ensures !c.parser.value.fields.keepAlive ==> LastSaysClose(Blocks(c.history.calls))
  {
    hide NoneSaysClose, NoneBefore, LastSaysClose, Blocks, Served, Parsed, RequestOf;
    if c.parser.value.fields.keepAlive {
      NoneAtAll(Blocks(c.history.calls));
    }
  }

  lemma WritableKeeps(c: Connection, handled: Handled, sending: Sending)
    requires Consistent(c) && c.armed.Out? && handled.response != ""
    requires NeedsHandler(c) ==> c.parser.Some?
    requires sending.Sent? ==> sending.n <= |(if NeedsHandler(c) then Handle(c, handled) else c).client.response|
    ensures Well(Writable(c, handled, sending))
  {
    var c' := if NeedsHandler(c) then Handle(c, handled) else c;
    if NeedsHandler(c) {
      HandleKeeps(c, handled);
    }
    assert Consistent(c') && c'.armed.Out? && c'.client.response != "";
    if sending.Sent? {
      FinishKeeps(c', sending.n);
    }
  }

  /** The three maps, what epoll watches, the descriptors the kernel has open, and what has been recorded. */
  datatype State = State(
    clients: map<int, Client>, clientData: map<int, ClientData>, parsers: map<int, Parser>, armed: map<int, Direction>,
    open: set<int>, histories: map<int, History>, closed: seq<After>)

  const NO_CLIENTS := State(map[], map[], map[], map[], {}, map[], [])

  predicate Known(s: State, fd: int) {
    fd in s.clients && fd in s.clientData && fd in s.armed && fd in s.histories
  }

  function Get(s: State, fd: int): Connection
    requires Known(s, fd)
  {
    var parser := if fd in s.parsers then Some(s.parsers[fd]) else None;
    Connection(s.clients[fd], s.clientData[fd], s.armed[fd], parser, s.histories[fd])
  }

  function Put(s: State, fd: int, c: Connection): State {
    s.(clients := s.clients[fd := c.client], clientData := s.clientData[fd := c.data], armed := s.armed[fd := c.armed],
       parsers := if c.parser.Some? then s.parsers[fd := c.parser.value] else s.parsers - {fd},
       histories := s.histories[fd := c.history])
  }

  /** The clean-up of a closed connection; the branch without a parser only closes the descriptor. */
  function Drop(s: State, fd: int, a: After): State
    requires a.Closed?
  {
    if a.how.NoParser? then s.(armed := s.armed - {fd}, open := s.open - {fd})
    else State(s.clients - {fd}, s.clientData - {fd}, s.parsers - {fd}, s.armed - {fd}, s.open - {fd},
               s.histories - {fd}, s.closed + [a])
  }

  function Apply(s: State, fd: int, a: After): State {
    if a.Open? then Put(s, fd, a.connection) else Drop(s, fd, a)
  }

  /** What the kernel and the handlers may do next. */
  datatype Event =
    | Accept(fd: int)
    | CanRead(fd: int, bytes: string, errorPage: string)
    | CanWrite(fd: int, handled: Handled, sending: Sending)

  const READ_SIZE := 65536

  /** The kernel's side: accept hands out a descriptor that is not open; epoll reports the armed direction; send takes
      no more than it is given; pages and responses are not empty. */
  predicate Enabled(s: State, e: Event) {
    match e
    case Accept(fd) => fd !in s.open
    case CanRead(fd, bytes, errorPage) => Known(s, fd) && s.armed[fd].In? && |bytes| <= READ_SIZE && errorPage != ""
    case CanWrite(fd, handled, sending) =>
      Known(s, fd) && s.armed[fd].Out? && handled.response != ""
      && var pending := if NeedsHandler(Get(s, fd)) then handled.response else s.clients[fd].response;
         sending.Sent? ==> sending.n <= |pending|
  }

  /** The program's side: it does not use a parser that has been deleted or is in no defined state. */
  predicate Defined(s: State, e: Event) {
    match e
    case Accept(fd) => true
    case CanRead(fd, bytes, errorPage) => Known(s, fd) && (fd in s.parsers ==> Valid(s.parsers[fd]))
    case CanWrite(fd, handled, sending) => Known(s, fd) && (NeedsHandler(Get(s, fd)) ==> fd in s.parsers)
  }

  function Step(s: State, e: Event): State
    requires Enabled(s, e) && Defined(s, e)
  {
    match e
    case Accept(fd) => Put(s.(open := s.open + {fd}), fd, ACCEPTED)
    case CanRead(fd, bytes, errorPage) => Apply(s, fd, Readable(Get(s, fd), bytes, errorPage))
    case CanWrite(fd, handled, sending) => Apply(s, fd, Writable(Get(s, fd), handled, sending))
  }

  predicate Invariant(s: State) {
    && s.clients.Keys == s.clientData.Keys == s.armed.Keys == s.histories.Keys == s.open
    && s.parsers.Keys <= s.clients.Keys
    && (forall fd :: fd in s.open ==> Consistent(Get(s, fd)))
    && (forall i :: 0 <= i < |s.closed| ==> s.closed[i].Closed? && ClosedWell(s.closed[i]))
  }

  lemma ApplyKeeps(s: State, fd: int, a: After)
    requires Invariant(s) && fd in s.open && Well(a)
    ensures Invariant(Apply(s, fd, a))
  {
    hide Consistent, ClosedWell;
    var s' := Apply(s, fd, a);
    assert a.Closed? ==> !a.how.NoParser? by {
      EndsWell(a);
    }
    forall k | k in s'.open ensures Consistent(Get(s', k)) {
      if k != fd {
        assert Get(s', k) == Get(s, k);
      } else {
        assert Get(s', fd) == a.connection;
      }
    }
  }

  lemma EndsWell(a: After)
    requires Well(a)
    ensures a.Closed? ==> !a.how.NoParser?
  {
  }

  lemma NeverUndefined(s: State, e: Event)
    requires Invariant(s) && Enabled(s, e)
    ensures Defined(s, e)
  {
    hide Faithful;
    if !e.Accept? {
      assert Consistent(Get(s, e.fd));
    }
  }

  lemma StepKeeps(s: State, e: Event)
    requires Invariant(s) && Enabled(s, e) && Defined(s, e)
    ensures Invariant(Step(s, e))
  {
    hide Consistent, ClosedWell, Readable, Writable, Well;
    match e
    case Accept(fd) =>
      AcceptedIsConsistent();
      var s' := Step(s, e);
      forall k | k in s'.open ensures Consistent(Get(s', k)) {
        if k != fd {
          assert Get(s', k) == Get(s, k);
        } else {
          assert Get(s', fd) == ACCEPTED;
        }
      }
    case CanRead(fd, bytes, errorPage) =>
      ReadableKeeps(Get(s, fd), bytes, errorPage);
      ApplyKeeps(s, fd, Readable(Get(s, fd), bytes, errorPage));
    case CanWrite(fd, handled, sending) =>
      WritableKeeps(Get(s, fd), handled, sending);
      ApplyKeeps(s, fd, Writable(Get(s, fd), handled, sending));
  }

  /** A run: the kernel and the handlers do what they like, the program its step, as long as that is defined. */
  ghost predicate IsRun(states: seq<State>, events: seq<Event>) {
    && |states| == |events| + 1 && states[0] == NO_CLIENTS
    && forall i :: 0 <= i < |events| ==>
         Enabled(states[i], events[i])
             && (Defined(states[i], events[i]) ==> states[i + 1] == Step(states[i], events[i]))
  }

  /** Every state of every run satisfies the invariant, and no step is undefined. */
  lemma {:induction false} RunKeeps(states: seq<State>, events: seq<Event>, n: nat)
    requires IsRun(states, events) && n < |states|
    ensures Invariant(states[n])
    ensures n < |events| ==> Defined(states[n], events[n])
  {
    hide Invariant, Step, Enabled, Defined;
    if n > 0 {
      RunKeeps(states, events, n - 1);
      StepKeeps(states[n - 1], events[n - 1]);
    } else {
      NoClientsIsFine();
    }
    if n < |events| {
      NeverUndefined(states[n], events[n]);
    }
  }

  lemma NoClientsIsFine()
    ensures Invariant(NO_CLIENTS)
  {
  }

  /** The maps agree in every reachable state: the open descriptors are the keys of both client maps, the parsers are
      among them, a client is ready exactly when EPOLLOUT is armed, and one without a parser is being closed. */
  lemma MapsAgree(states: seq<State>, events: seq<Event>, n: nat, fd: int)
    requires IsRun(states, events) && n < |states|
    ensures var s := states[n];
      && s.clients.Keys == s.clientData.Keys == s.armed.Keys == s.open && s.parsers.Keys <= s.open
      && (fd in s.open ==>
            && (s.clients[fd].readyToRespond <==> s.armed[fd].Out?)
            && (fd !in s.parsers ==> s.clientData[fd].shouldClose && s.armed[fd].Out? && s.clients[fd].response != ""))
  {
    RunKeeps(states, events, n);
    var s := states[n];
    hide Faithful;
    if fd in s.open {
      assert Consistent(Get(s, fd));
    }
  }

  /** The branch for a client without parser is never taken. */
  lemma ParserAlwaysFound(states: seq<State>, events: seq<Event>, n: nat)
    requires IsRun(states, events) && n < |events| && events[n].CanRead?
    ensures events[n].fd in states[n].parsers
    ensures var s, e := states[n], events[n];
      && Defined(s, e)
      && var after := Readable(Get(s, e.fd), e.bytes, e.errorPage); !(after.Closed? && after.how.NoParser?)
  {
    RunKeeps(states, events, n);
    hide Faithful, Feed;
    assert Consistent(Get(states[n], events[n].fd));
  }

  /** Exactly-once delivery, in every reachable state and for every open connection: the bytes on the wire followed by
      the pending ones are the responses promised so far; the handler has been run once for each parsed request, in
      order, but for at most the last one, whose response is still to be computed; and while EPOLLIN is armed nothing is
      pending and every parsed request has been answered. */
  lemma ExactlyOnce(states: seq<State>, events: seq<Event>, n: nat, fd: int)
    requires IsRun(states, events) && n < |states| && fd in states[n].open
    ensures Known(states[n], fd)
    ensures var c := Get(states[n], fd);
      var served, parsed := Served(c.history.answers), Parsed(c.history.calls);
      && c.history.wire + c.client.response == Promised(c.history.answers)
      && c.history.received == AllFed(c.history.calls)
      && (c.parser.Some? ==> c.history.received == Run(c.history.calls).1 + c.parser.value.buffer)
      && (served == parsed || (c.armed.Out? && c.client.response == "" && parsed != []
          && served == parsed[..|parsed| - 1]))
      && (c.armed.In? ==> c.history.wire == Promised(c.history.answers) && served == parsed)
  {
    RunKeeps(states, events, n);
    var c := Get(states[n], fd);
    assert Consistent(c);
    assert c.history.wire + "" == c.history.wire;
    var served, parsed := Served(c.history.answers), Parsed(c.history.calls);
    if served != parsed {
      assert parsed == served + [RequestOf(c.parser.value)];
    }
  }

  /** The handler has been run for the first of the wanted requests, in order and for no others. The connection has
      been refused exactly when a piece did not fit into the parser's buffer; otherwise as many requests have been
      parsed as the calls count. When it waits for more, the handler has been run for all of them if and only if
      there were enough calls behind the end of each; behind the whole stream, that leaves no byte of it in the
      buffer. */
  predicate InOrder(c: Connection, rs: seq<string>, wanted: seq<Request>)
    requires |wanted| == |rs|
  {
    var served, calls := Served(c.history.answers), c.history.calls;
    && served <= wanted
    && (c.parser.None? <==> !Roomy(calls))
    && (Roomy(calls) ==> Parsed(calls) == wanted[..Count(calls, rs)])
    && (c.armed.In? && c.parser.Some? ==>
          && served == Parsed(calls) && c.history.wire == Promised(c.history.answers)
          && (served == wanted <==> EnoughCalls(calls, rs, |rs|))
          && (c.history.received == Flatten(rs) ==> (served == wanted <==> c.parser.value.buffer == "")))
  }

  /** The same of what is recorded of a closed connection. */
  predicate ClosedInOrder(h: History, rs: seq<string>, wanted: seq<Request>)
    requires |wanted| == |rs|
  {
    && Served(h.answers) <= wanted
    && (WasRefused(h.answers) <==> !Roomy(h.calls))
    && (Roomy(h.calls) ==>
          && Served(h.answers) == wanted[..Count(h.calls, rs)]
          && (Served(h.answers) == wanted <==> EnoughCalls(h.calls, rs, |rs|)))
  }

  /** StreamParsed, with the requests cut at the count. */
  lemma ParsedCount(calls: seq<Call>, rs: seq<string>)
    requires AllFit(rs) && AllFed(calls) <= Flatten(rs) && Disciplined(calls)
    ensures |Requests(rs)| == |rs| && Parsed(calls) <= Requests(rs) && (Run(calls).0.phase.Error? <==> !Roomy(calls))
    ensures Roomy(calls) ==>
      && Parsed(calls) == Requests(rs)[..Count(calls, rs)]
      && (Parsed(calls) == Requests(rs) <==> EnoughCalls(calls, rs, |rs|))
  {
    hide *;
    StreamParsed(calls, rs);
    RequestsPrefix(rs, Count(calls, rs));
  }

  /** End to end: what has been received on an open connection is the beginning of a stream of requests. */
  lemma StreamServed(states: seq<State>, events: seq<Event>, n: nat, fd: int, rs: seq<string>)
    requires IsRun(states, events) && n < |states| && fd in states[n].open
    requires Known(states[n], fd) && AllFit(rs) && Get(states[n], fd).history.received <= Flatten(rs)
    ensures |Requests(rs)| == |rs| && InOrder(Get(states[n], fd), rs, Requests(rs))
  {
    RunKeeps(states, events, n);
    var c := Get(states[n], fd);
    assert Consistent(c);
    hide IsRun, Invariant;
    ConsistentInOrder(c, rs);
  }

  lemma ConsistentInOrder(c: Connection, rs: seq<string>)
    requires Consistent(c) && AllFit(rs) && c.history.received <= Flatten(rs)
    ensures |Requests(rs)| == |rs| && InOrder(c, rs, Requests(rs))
  {
    hide AllFit, Requests, Run, AllFed, Parsed, Disciplined, Roomy, Promised, Served, Flatten, Count, EnoughCalls;
    hide WasRefused, RequestOf, HasHost;
    ParsedCount(c.history.calls, rs);
    StreamParsed(c.history.calls, rs);
    assert c.history.wire + "" == c.history.wire;
  }

  /** The same for a connection that has been closed. */
  lemma StreamServedClosed(states: seq<State>, events: seq<Event>, n: nat, i: nat, rs: seq<string>)
    requires IsRun(states, events) && n < |states| && i < |states[n].closed| && states[n].closed[i].Closed?
    requires AllFit(rs) && states[n].closed[i].history.received <= Flatten(rs)
    ensures |Requests(rs)| == |rs| && ClosedInOrder(states[n].closed[i].history, rs, Requests(rs))
  {
    RunKeeps(states, events, n);
    var a := states[n].closed[i];
    assert ClosedWell(a);
    hide AllFit, Requests, Run, AllFed, Parsed, Disciplined, Roomy, Promised, Served, Flatten, Count, EnoughCalls;
    hide WasRefused, IsRun, Invariant;
    ParsedCount(a.history.calls, rs);
  }

  /** The same for printed requests: the handler is given what the client meant, whatever the pieces recv returned and
      however much send took. */
  lemma PrintedServed(states: seq<State>, events: seq<Event>, n: nat, fd: int, qs: seq<Printed>)
    requires IsRun(states, events) && n < |states| && fd in states[n].open
    requires forall i :: 0 <= i < |qs| ==> GoodRequest(qs[i])
    requires Known(states[n], fd) && Get(states[n], fd).history.received <= Flatten(PrintAll(qs))
    ensures |IntendedAll(qs)| == |PrintAll(qs)| && InOrder(Get(states[n], fd), PrintAll(qs), IntendedAll(qs))
  {
    hide *;
    PrintedAllFit(qs);
    StreamServed(states, events, n, fd, PrintAll(qs));
  }

  lemma PrintedServedClosed(states: seq<State>, events: seq<Event>, n: nat, i: nat, qs: seq<Printed>)
    requires IsRun(states, events) && n < |states| && i < |states[n].closed| && states[n].closed[i].Closed?
    requires forall k :: 0 <= k < |qs| ==> GoodRequest(qs[k])
    requires states[n].closed[i].history.received <= Flatten(PrintAll(qs))
    ensures |IntendedAll(qs)| == |PrintAll(qs)|
    ensures ClosedInOrder(states[n].closed[i].history, PrintAll(qs), IntendedAll(qs))
  {
    hide *;
    PrintedAllFit(qs);
    StreamServedClosed(states, events, n, i, PrintAll(qs));
  }

  /** When feed_data answers PARSE_OK, the start line is there, and the host that is looked up next. */
  lemma HandlerFindsHost(states: seq<State>, events: seq<Event>, n: nat)
    requires IsRun(states, events) && n < |events| && events[n].CanRead?
    ensures var s, e := states[n], events[n];
      && e.fd in s.parsers && Valid(s.parsers[e.fd])
      && var (v, p) := Feed(s.parsers[e.fd], e.bytes);
         v.Ok? ==> p.startLine.Some? && "host" in p.fields.headers
  {
    RunKeeps(states, events, n);
    var s, e := states[n], events[n];
    ParserAlwaysFound(states, events, n);
    var c := Get(s, e.fd);
    assert Consistent(c);
    hide Feed;
    FeedHasHost(c.parser.value, e.bytes);
  }

  /** When the handler is run, the request it answers is still there. */
  lemma HandlerHasRequest(states: seq<State>, events: seq<Event>, n: nat)
    requires IsRun(states, events) && n < |events| && events[n].CanWrite?
    requires Known(states[n], events[n].fd) && NeedsHandler(Get(states[n], events[n].fd))
    ensures var s, fd := states[n], events[n].fd;
      fd in s.parsers && s.parsers[fd].startLine.Some? && "host" in s.parsers[fd].fields.headers
  {
    RunKeeps(states, events, n);
    assert Consistent(Get(states[n], events[n].fd));
  }

  /** Every connection that was closed had been served in full, and unless a send failed all of it was sent. */
  lemma ClosedInFull(states: seq<State>, events: seq<Event>, n: nat, i: nat)
    requires IsRun(states, events) && n < |states| && i < |states[n].closed|
    ensures var a := states[n].closed[i];
      && a.Closed? && !a.how.NoParser?
      && a.history.wire + a.pending == Promised(a.history.answers)
      && Served(a.history.answers) == Parsed(a.history.calls) && a.history.received == AllFed(a.history.calls)
      && (!a.how.SendFailed? ==> a.history.wire == Promised(a.history.answers))
  {
    RunKeeps(states, events, n);
    var a := states[n].closed[i];
    assert ClosedWell(a);
    assert a.history.wire + "" == a.history.wire;
  }

  /** Which connections are closed after an answer, over every run: one recorded as closed normally was refused, or the
      header block of the last request it was served says `connection: close`; no earlier request said so, and none at
      all when the peer closed it. There is one block for each parsed request, each of which was served. */
  lemma ClosedAsTold(states: seq<State>, events: seq<Event>, n: nat, i: nat)
    requires IsRun(states, events) && n < |states| && i < |states[n].closed| && states[n].closed[i].Closed?
    ensures var a := states[n].closed[i]; var blocks := Blocks(a.history.calls); var k := |blocks|;
      && k == |Served(a.history.answers)| && (forall j :: 0 <= j < k - 1 ==> !BlockSaysClose(blocks[j]))
      && (a.how.Normal? && !WasRefused(a.history.answers) ==> k > 0 && BlockSaysClose(blocks[k - 1]))
      && (k > 0 && (a.how.PeerGone? || WasRefused(a.history.answers)) && !a.how.SendFailed? ==>
            !BlockSaysClose(blocks[k - 1]))
  {
    RunKeeps(states, events, n);
    var a := states[n].closed[i];
    assert ClosedWell(a);
    AsManyBlocks(a.history.calls);
    var blocks := Blocks(a.history.calls);
    hide Blocks, Served, Parsed, BlockSaysClose;
    EarlierBlocks(blocks);
  }

  lemma EarlierBlocks(blocks: seq<string>)
    ensures NoneSaysClose(blocks) || NoneBefore(blocks) ==>
      forall j :: 0 <= j < |blocks| - 1 ==> !BlockSaysClose(blocks[j])
  {
    hide BlockSaysClose;
    forall j | 0 <= j < |blocks| - 1 ensures blocks[j] == blocks[..|blocks| - 1][j] {
    }
  }

  /** Which are kept: while EPOLLIN is armed, no request that was served said `connection: close`, and the
      connection has not been refused; while EPOLLOUT is armed, no request but the last did. */
  lemma KeptAsTold(states: seq<State>, events: seq<Event>, n: nat, fd: int)
    requires IsRun(states, events) && n < |states| && fd in states[n].open
    ensures Known(states[n], fd)
    ensures var c := Get(states[n], fd); var blocks := Blocks(c.history.calls);
      && |blocks| == |Parsed(c.history.calls)|
      && (forall j :: 0 <= j < |blocks| - 1 ==> !BlockSaysClose(blocks[j]))
      && (c.armed.In? ==> !WasRefused(c.history.answers))
      && (c.armed.In? ==> forall j :: 0 <= j < |blocks| ==> !BlockSaysClose(blocks[j]))
  {
    RunKeeps(states, events, n);
    var c := Get(states[n], fd);
    assert Consistent(c);
    AsManyBlocks(c.history.calls);
    var blocks := Blocks(c.history.calls);
    hide Blocks, Served, Parsed, BlockSaysClose, Promised, AllFed, Run, HasHost, Told;
    EarlierBlocks(blocks);
  }

  /** End to end, for printed requests: while EPOLLIN is armed, no request that was served had fields that say
      `connection: close`; while EPOLLOUT is armed, none but the last. */
  lemma PrintedKept(states: seq<State>, events: seq<Event>, n: nat, fd: int, qs: seq<Printed>)
    requires IsRun(states, events) && n < |states| && fd in states[n].open
    requires forall i :: 0 <= i < |qs| ==> GoodRequest(qs[i])
    requires Known(states[n], fd) && Get(states[n], fd).history.received <= Flatten(PrintAll(qs))
    ensures var c := Get(states[n], fd); var k := |Parsed(c.history.calls)|;
      && k <= |qs| && (forall j :: 0 <= j < k - 1 ==> !PrintedSaysClose(qs[j]))
      && (c.armed.In? ==> forall j :: 0 <= j < k ==> !PrintedSaysClose(qs[j]))
  {
    hide *;
    KeptAsTold(states, events, n, fd);
    ReceivedIsFed(states, events, n, fd);
    PrintedBlocks(Get(states[n], fd).history.calls, qs);
  }

  lemma ReceivedIsFed(states: seq<State>, events: seq<Event>, n: nat, fd: int)
    requires IsRun(states, events) && n < |states| && fd in states[n].open
    ensures Known(states[n], fd)
    ensures var h := Get(states[n], fd).history; h.received == AllFed(h.calls) && Disciplined(h.calls)
  {
    RunKeeps(states, events, n);
    assert Consistent(Get(states[n], fd));
    hide AllFed, Disciplined, Run, Reading, Responding, Refusing;
  }

  /** And a connection recorded as closed normally was refused, or the last of the requests it was served has fields
      that say so. */
  lemma PrintedClosed(states: seq<State>, events: seq<Event>, n: nat, i: nat, qs: seq<Printed>)
    requires IsRun(states, events) && n < |states| && i < |states[n].closed| && states[n].closed[i].Closed?
    requires forall k :: 0 <= k < |qs| ==> GoodRequest(qs[k])
    requires states[n].closed[i].history.received <= Flatten(PrintAll(qs))
    ensures var a := states[n].closed[i]; var k := |Served(a.history.answers)|;
      && k <= |qs| && (forall j :: 0 <= j < k - 1 ==> !PrintedSaysClose(qs[j]))
      && (a.how.Normal? && !WasRefused(a.history.answers) ==> k > 0 && PrintedSaysClose(qs[k - 1]))
      && (k > 0 && (a.how.PeerGone? || WasRefused(a.history.answers)) && !a.how.SendFailed? ==>
            !PrintedSaysClose(qs[k - 1]))
  {
    hide *;
    ClosedAsTold(states, events, n, i);
    ClosedFed(states, events, n, i);
    PrintedBlocks(states[n].closed[i].history.calls, qs);
  }

  lemma ClosedFed(states: seq<State>, events: seq<Event>, n: nat, i: nat)
    requires IsRun(states, events) && n < |states| && i < |states[n].closed| && states[n].closed[i].Closed?
    ensures var h := states[n].closed[i].history; h.received == AllFed(h.calls) && Disciplined(h.calls)
  {
    RunKeeps(states, events, n);
    assert ClosedWell(states[n].closed[i]);
    hide AllFed, Disciplined, Run, ClosedRightly;
  }

  /** The response that is being sent, or is about to be, answers a GET. */
  predicate AnswersGet(h: History) {
    var last := LastParsed(h.calls);
    !WasRefused(h.answers) && last.Some? && last.value.line.Some? && last.value.line.value.verb == "GET"
  }

  /** What a call of send leaves to be sent; a call that fails leaves everything. */
  function Left(c: Connection, handled: Handled, sending: Sending): int {
    |if NeedsHandler(c) then handled.response else c.client.response| - if sending.Sent? then sending.n else 0
  }

  /** Exactly when a step leaves the connection open. Reading: unless the peer has closed it. Writing: a call of send
      that would block never closes it, a failed one unless a GET is being answered, and the one that sends the last
      byte when the connection was refused or the last request's header block says `connection: close`. */
  lemma StaysOpen(states: seq<State>, events: seq<Event>, n: nat)
    requires IsRun(states, events) && n < |events| && !events[n].Accept?
    ensures var e := events[n]; Known(states[n], e.fd)
    ensures var s, e := states[n], events[n]; var c := Get(s, e.fd);
      e.fd in states[n + 1].open <==>
        if e.CanRead? then e.bytes != ""
        else
          match e.sending
          case WouldBlock => true
          case SendError => AnswersGet(c.history)
          case Sent(_) => Left(c, e.handled, e.sending) > 0 || !(WasRefused(c.history.answers)
                                                                 || LastSaysClose(Blocks(c.history.calls)))
  {
    RunKeeps(states, events, n);
    var s, e := states[n], events[n];
    var c := Get(s, e.fd);
    assert Consistent(c);
    hide Consistent, Readable, Writable, Step, Defined;
    StepApplies(s, e);
    if e.CanRead? {
      ReadableStays(c, e.bytes, e.errorPage);
    } else {
      WritableStays(c, e.handled, e.sending);
    }
  }

  lemma StepApplies(s: State, e: Event)
    requires Enabled(s, e) && Defined(s, e) && !e.Accept? && e.fd in s.open
    ensures var a := if e.CanRead? then Readable(Get(s, e.fd), e.bytes, e.errorPage)
                     else Writable(Get(s, e.fd), e.handled, e.sending);
      e.fd in Step(s, e).open <==> a.Open?
  {
    hide Readable, Writable;
  }

  lemma ReadableStays(c: Connection, bytes: string, errorPage: string)
    requires Consistent(c) && c.armed.In?
    ensures Readable(c, bytes, errorPage).Open? <==> bytes != ""
  {
    hide Faithful, Feed, Blocks, Parsed, Served;
  }

  lemma WritableStays(c: Connection, handled: Handled, sending: Sending)
    requires Consistent(c) && c.armed.Out? && handled.response != "" && (NeedsHandler(c) ==> c.parser.Some?)
    requires sending.Sent? ==> sending.n <= |(if NeedsHandler(c) then Handle(c, handled) else c).client.response|
    ensures Writable(c, handled, sending).Open? <==>
      match sending
      case WouldBlock => true
      case SendError => AnswersGet(c.history)
      case Sent(_) => Left(c, handled, sending) > 0 || !(WasRefused(c.history.answers)
                                                         || LastSaysClose(Blocks(c.history.calls)))
  {
    hide Blocks, LastSaysClose, NoneBefore, NoneSaysClose, Parsed, Served, Promised, AllFed, Disciplined, HasHost, Told;
    hide Run, LastParsed;
  }

  /** The loop's object: the maps are updated in place; what the kernel has open and what is recorded is ghost. */
  class Servers {
    var clients: map<int, Client>
    var clientDataMap: map<int, ClientData>
    var clientParsers: map<int, Parser>
    var epoll: map<int, Direction>
    ghost var open: set<int>
    ghost var histories: map<int, History>
    ghost var closed: seq<After>

    ghost function View(): State
      reads this
    {
      State(clients, clientDataMap, clientParsers, epoll, open, histories, closed)
    }

    constructor ()
      ensures View() == NO_CLIENTS
    {
      clients, clientDataMap, clientParsers, epoll := map[], map[], map[], map[];
      open, histories, closed := {}, map[], [];
    }

    /** A ready listening socket, after accept. */
    method AcceptClient(clientFd: int)
      requires clientFd !in open
      modifies this
      ensures View() == Step(old(View()), Accept(clientFd))
    {
      epoll := epoll[clientFd := In];
      clients := clients[clientFd := Client("", false)];
      clientParsers := clientParsers[clientFd := FRESH_PARSER];
      clientDataMap := clientDataMap[clientFd := FRESH_DATA];
      open := open + {clientFd};
      histories := histories[clientFd := FRESH_HISTORY];
    }

    /** The clean-up every ending shares. */
    method CloseClient(fd: int, ghost a: After)
      requires a.Closed? && !a.how.NoParser?
      modifies this
      ensures View() == Drop(old(View()), fd, a)
    {
      clientParsers := clientParsers - {fd};
      clients := clients - {fd};
      clientDataMap := clientDataMap - {fd};
      epoll := epoll - {fd};
      open := open - {fd};
      histories := histories - {fd};
      closed := closed + [a];
    }

    /** EPOLLIN on a client. */
    method ReadClient(fd: int, bytes: string, errorPage: string)
      requires Enabled(View(), CanRead(fd, bytes, errorPage)) && Defined(View(), CanRead(fd, bytes, errorPage))
      modifies this
      ensures View() == Step(old(View()), CanRead(fd, bytes, errorPage))
    {
      hide Feed;
      if bytes == "" {
        CloseClient(fd, Closed(PeerGone, histories[fd], clients[fd].response));
        return;
      }
      if fd !in clientParsers {
        epoll := epoll - {fd};
        open := open - {fd};
        return;
      }
      ghost var s, c := View(), Get(View(), fd);
      var (result, parser) := Feed(clientParsers[fd], bytes);
      hide Put, Ready, Refuse, Received;
      FeedClient(fd, parser, bytes);
      ghost var fed := Received(c, parser, bytes);
      GetPut(s, fd, fed);
      if result.Ok? {
        MarkReady(fd);
        ApplyPut(s, fd, fed, Open(Ready(fed)));
      } else if result.Failed? {
        RefuseClient(fd, errorPage);
        ApplyPut(s, fd, fed, Open(Refuse(fed, errorPage)));
      }
    }

    /** feed_data has been called. */
    method FeedClient(fd: int, parser: Parser, ghost bytes: string)
      requires Known(View(), fd) && fd in clientParsers
      modifies this
      ensures View() == Put(old(View()), fd, Received(Get(old(View()), fd), parser, bytes))
    {
      clientParsers := clientParsers[fd := parser];
      ghost var h := histories[fd];
      histories := histories[fd := h.(calls := h.calls + [Fed(bytes)], received := h.received + bytes)];
      SameAsPut(old(View()), View(), fd, Received(Get(old(View()), fd), parser, bytes));
    }

    /** The branch of PARSE_OK. */
    method MarkReady(fd: int)
      requires Known(View(), fd) && fd in clientParsers
      modifies this
      ensures View() == Put(old(View()), fd, Ready(Get(old(View()), fd)))
    {
      if !clientDataMap[fd].initialized {
        var line := clientParsers[fd].startLine;
        var verb := if line.Some? then line.value.verb else "";
        clientDataMap := clientDataMap[fd := ClientData(verb, true, false, false, 0)];
      }
      clients := clients[fd := clients[fd].(readyToRespond := true)];
      epoll := epoll[fd := Out];
      SameAsPut(old(View()), View(), fd, Ready(Get(old(View()), fd)));
    }

    /** The branch of PARSE_ERROR_RESULT. */
    method RefuseClient(fd: int, errorPage: string)
      requires Known(View(), fd) && fd in clientParsers
      modifies this
      ensures View() == Put(old(View()), fd, Refuse(Get(old(View()), fd), errorPage))
    {
      clients := clients[fd := Client(errorPage, true)];
      clientDataMap := clientDataMap[fd := clientDataMap[fd].(shouldClose := true)];
      epoll := epoll[fd := Out];
      clientParsers := clientParsers - {fd};
      histories := histories[fd := histories[fd].(answers := histories[fd].answers + [Refused(errorPage)])];
      SameAsPut(old(View()), View(), fd, Refuse(Get(old(View()), fd), errorPage));
    }

    /** EPOLLOUT on a client: the handler if there is nothing to send yet, send, and the end of the response. */
    method WriteClient(fd: int, handled: Handled, sending: Sending)
      requires Enabled(View(), CanWrite(fd, handled, sending)) && Defined(View(), CanWrite(fd, handled, sending))
      modifies this
      ensures View() == Step(old(View()), CanWrite(fd, handled, sending))
    {
      hide Handle, Advance, Finish, Put;
      ghost var s, c := View(), Get(View(), fd);
      var get := clientDataMap[fd].nameMethod == "GET";
      PutGet(s, fd);
      if clients[fd].response == "" && (get ==> !clientDataMap[fd].chunkedSending) {
        RunHandler(fd, handled);
        HandleResponds(c, handled);
        c := Handle(c, handled);
      }
      GetPut(s, fd, c);
      assert View() == Put(s, fd, c);
      if !get && sending.WouldBlock? {
        return;
      }
      if !get && sending.SendError? {
        ApplyPut(s, fd, c, Closed(SendFailed, c.history, c.client.response));
        CloseClient(fd, Closed(SendFailed, histories[fd], clients[fd].response));
        return;
      }
      if sending.Sent? {
        EraseSent(fd, sending.n);
        ApplyPut(s, fd, c, Open(Advance(c, sending.n)));
        c := Advance(c, sending.n);
        GetPut(s, fd, c);
      }
      assert View() == Put(s, fd, c) && Get(View(), fd) == c;
      FinishKinds(c);
      if clients[fd].response == "" {
        FinishResponse(fd);
        ApplyPut(s, fd, c, Finish(c));
      }
    }

    method RunHandler(fd: int, handled: Handled)
      requires Known(View(), fd) && fd in clientParsers
      modifies this
      ensures View() == Put(old(View()), fd, Handle(Get(old(View()), fd), handled))
    {
      clients := clients[fd := clients[fd].(response := handled.response)];
      clientDataMap := clientDataMap[fd := clientDataMap[fd].(chunkedSending := handled.chunked)];
      ghost var answer := Answered(RequestOf(clientParsers[fd]), handled.response);
      histories := histories[fd := histories[fd].(answers := histories[fd].answers + [answer])];
      SameAsPut(old(View()), View(), fd, Handle(Get(old(View()), fd), handled));
    }

    method EraseSent(fd: int, n: nat)
      requires Known(View(), fd) && n <= |clients[fd].response|
      modifies this
      ensures View() == Put(old(View()), fd, Advance(Get(old(View()), fd), n))
    {
      clientDataMap := clientDataMap[fd := clientDataMap[fd].(bytesSent := clientDataMap[fd].bytesSent + n)];
      histories := histories[fd := histories[fd].(wire := histories[fd].wire + clients[fd].response[..n])];
      clients := clients[fd := clients[fd].(response := clients[fd].response[n..])];
      SameAsPut(old(View()), View(), fd, Advance(Get(old(View()), fd), n));
    }

    method FinishResponse(fd: int)
      requires Known(View(), fd) && clients[fd].response == ""
      modifies this
      ensures View() == Apply(old(View()), fd, Finish(Get(old(View()), fd)))
    {
      clients := clients[fd := clients[fd].(readyToRespond := false)];
      var shouldClose := clientDataMap[fd].shouldClose || (fd in clientParsers && !clientParsers[fd].fields.keepAlive);
      if shouldClose {
        CloseClient(fd, Closed(Normal, histories[fd], ""));
        return;
      }
      epoll := epoll[fd := In];
      clientDataMap := clientDataMap[fd := FRESH_DATA];
      if fd in clientParsers {
        clientParsers := clientParsers[fd := Reset(clientParsers[fd])];
        histories := histories[fd := histories[fd].(calls := histories[fd].calls + [WasReset])];
      }
      SameAsPut(old(View()), View(), fd, Finish(Get(old(View()), fd)).connection);
    }
  }

  lemma HandleResponds(c: Connection, handled: Handled)
    requires c.parser.Some?
    ensures Handle(c, handled).client.response == handled.response
    ensures Handle(c, handled).data.nameMethod == c.data.nameMethod
  {
  }

  lemma FinishKinds(c: Connection)
    ensures Finish(c).Closed? ==> Finish(c).how.Normal?
    ensures c.client.response != "" ==> Finish(c) == Open(c)
  {
  }

  lemma UpdateIs<V>(m: map<int, V>, n: map<int, V>, fd: int)
    requires n - {fd} == m - {fd}
    ensures fd in n ==> n == m[fd := n[fd]]
    ensures fd !in n ==> n == m - {fd}
  {
    forall k | k != fd ensures (k in n <==> k in m) && (k in n ==> n[k] == m[k]) {
      assert k in n <==> k in n - {fd};
      assert k in m <==> k in m - {fd};
      if k in n {
        assert n[k] == (n - {fd})[k] == (m - {fd})[k];
      }
    }
  }

  lemma SameAsPut(s: State, t: State, fd: int, c: Connection)
    requires Known(t, fd) && Get(t, fd) == c && t.open == s.open && t.closed == s.closed
    requires t.clients - {fd} == s.clients - {fd} && t.clientData - {fd} == s.clientData - {fd}
    requires t.histories - {fd} == s.histories - {fd}
    requires t.armed - {fd} == s.armed - {fd} && t.parsers - {fd} == s.parsers - {fd}
    ensures t == Put(s, fd, c)
  {
    UpdateIs(s.clients, t.clients, fd);
    UpdateIs(s.clientData, t.clientData, fd);
    UpdateIs(s.histories, t.histories, fd);
    UpdateIs(s.armed, t.armed, fd);
    UpdateIs(s.parsers, t.parsers, fd);
  }

  /** A connection put back as it is, and one put twice. */
  lemma PutGet(s: State, fd: int)
    requires Known(s, fd)
    ensures Put(s, fd, Get(s, fd)) == s
  {
    SameAsPut(s, s, fd, Get(s, fd));
  }

  lemma GetPut(s: State, fd: int, c: Connection)
    ensures Known(Put(s, fd, c), fd) && Get(Put(s, fd, c), fd) == c
  {
  }

  lemma ApplyPut(s: State, fd: int, c: Connection, a: After)
    requires a.Open? || !a.how.NoParser?
    ensures Apply(Put(s, fd, c), fd, a) == Apply(s, fd, a)
  {
    var d := if a.Open? then a.connection else c;
    PutTwice(s.clients, fd, c.client, d.client);
    PutTwice(s.clientData, fd, c.data, d.data);
    PutTwice(s.histories, fd, c.history, d.history);
    PutTwice(s.armed, fd, c.armed, d.armed);
    if c.parser.Some? {
      PutTwice(s.parsers, fd, c.parser.value, if d.parser.Some? then d.parser.value else c.parser.value);
    } else if d.parser.Some? {
      DropPut(s.parsers, fd, d.parser.value);
    } else {
      assert s.parsers - {fd} - {fd} == s.parsers - {fd};
    }
  }

  lemma PutTwice<V>(m: map<int, V>, fd: int, a: V, b: V)
    ensures m[fd := a][fd := b] == m[fd := b]
    ensures m[fd := a] - {fd} == m - {fd}
  {
  }

  lemma DropPut<V>(m: map<int, V>, fd: int, b: V)
    ensures (m - {fd})[fd := b] == m[fd := b]
  {
  }
}

// The Go client and the server together: two message queues between them, and steps of either
// side in any order. The client's half is pkg/goclient/goclient.go; the server's steps are the
// rounds of Handshake, which the server object is proved to carry out.

module Lockstep {
  import opened Options
  import opened Sequences
  import opened Text
  import opened Constants
  import opened Handshake
  import opened Requests

  // ---------- Calls of the client library ----------

  datatype Call =
    | GetServerVersion
    | RequestXSKmapFD(device: string)
    | RequestBusyPoll(timeout: int, budget: int, fd: int)

  function RequestText(call: Call): string {
    match call
    case GetServerVersion => REQUEST_VERSION
    case RequestXSKmapFD(device) => MapRequest(device)
    case RequestBusyPoll(timeout, budget, _) => PollRequest(timeout, budget)
  }

  function RequestFd(call: Call): int {
    if call.RequestBusyPoll? then call.fd else -1
  }

  /** What one read at the other end returns of a write: only a positive descriptor travels. */
  function Packet(text: string, fd: int): Read {
    Message(Delivered(text), if fd > 0 then fd else 0)
  }

  datatype Result = Version(text: string) | Descriptor(fd: int) | Done | Failed

  /** What a call returns once it has read a reply. */
  function ResultOf(call: Call, reply: Read): Result
    requires reply.Message?
  {
    match call
    case GetServerVersion => Version(reply.text)
    case RequestXSKmapFD(_) => if reply.text == RESPONSE_FD_ACK then Descriptor(reply.fd) else Failed
    case RequestBusyPoll(_, _, _) => if reply.text == RESPONSE_BUSY_POLL_NAK then Failed else Done
  }

  /** Go's int arguments, with a real descriptor for busy poll. */
  predicate Proper(call: Call) {
    call.RequestBusyPoll? ==>
      call.fd > 0 && INT64_MIN <= call.timeout <= INT64_MAX && INT64_MIN <= call.budget <= INT64_MAX
  }

  // ---------- The two-queue system ----------

  /** The server's side of the setup and the client's host name. */
  datatype Setup = Setup(
    o: Outcomes, devices: map<string, int>, pods: Option<map<string, Pod>>, resource: string, hostname: string)

  datatype ServerState = Listening | Serving | Stopped

  /** Greeting waits for the answer to the connection request before making the call. */
  datatype ClientState = Greeting(call: Call) | Ready(call: Call) | Awaiting(call: Call) | Idle

  datatype Exchange = Exchange(connected: bool, call: Call, reply: Read)

  /** `taken` is what the server has read; `answers` the replies the client has read, with the calls it made. */
  datatype State = State(
    connected: bool, client: ClientState, server: ServerState, up: seq<Read>, down: seq<Read>,
    log: seq<Event>, taken: seq<Read>, answers: seq<Exchange>)

  function Hello(setup: Setup): Read { Packet(ConnectRequest(setup.hostname), -1) }

  predicate Initial(setup: Setup, s: State) {
    s.client.Greeting? && Proper(s.client.call)
    && s == State(false, s.client, Listening, [Hello(setup)], [], [], [], [])
  }

  /** The messages the successful writes among the events put on the wire. */
  function Packets(events: seq<Event>): (packets: seq<Read>)
    ensures |packets| <= |events|
  {
    if events == [] then []
    else
      var e := events[0];
      (if e.Sent? && e.ok then [Packet(e.text, e.fd)] else []) + Packets(events[1..])
  }

  function ServerTurn(setup: Setup, s: State, read: Read): Step {
    if s.server == Listening then Opening(setup.o, setup.devices, setup.pods, setup.resource, read)
    else Turn(Answers(setup.o, setup.devices), read, |s.log|)
  }

  /** The state after the server has read and done its round. */
  function Advance(s: State, read: Read, turn: Step): State {
    s.(server := if turn.go then Serving else Stopped, log := s.log + turn.events,
       down := s.down + Packets(turn.events), taken := s.taken + [read])
  }

  /** The server reads the next message. */
  predicate ServerReads(setup: Setup, s: State, t: State) {
    s.server != Stopped && s.up != [] && t == Advance(s.(up := s.up[1..]), s.up[0], ServerTurn(setup, s, s.up[0]))
  }

  /** A read of the server times out or fails. */
  predicate ServerReadFails(setup: Setup, s: State, t: State) {
    s.server != Stopped && t == Advance(s, Failure, ServerTurn(setup, s, Failure))
  }

  predicate ClientReadsGreeting(s: State, t: State) {
    && s.client.Greeting? && s.down != [] && s.down[0].Message?
    && t == s.(connected := s.down[0].text == RESPONSE_HOST_OK, client := Ready(s.client.call), down := s.down[1..])
  }

  predicate ClientWrites(s: State, t: State) {
    && s.client.Ready?
    && t == s.(client := Awaiting(s.client.call),
               up := s.up + [Packet(RequestText(s.client.call), RequestFd(s.client.call))])
  }

  /** A write can fail once the server has stopped. */
  predicate ClientWriteFails(s: State, t: State) {
    s.client.Ready? && s.server == Stopped && t == s.(client := Idle)
  }

  predicate ClientReads(s: State, t: State) {
    && s.client.Awaiting? && s.down != []
    && t == s.(client := Idle, down := s.down[1..],
               answers := s.answers + [Exchange(s.connected, s.client.call, s.down[0])])
  }

  /** A read fails when the server has stopped and left nothing to read. */
  predicate ClientReadFails(s: State, t: State) {
    (s.client.Awaiting? || s.client.Greeting?) && s.server == Stopped && s.down == [] && t == s.(client := Idle)
  }

  /** The next call on this connection. A client that is not connected dials again instead. */
  ghost predicate ClientCalls(s: State, t: State) {
    s.client.Idle? && s.connected && exists call :: Proper(call) && t == s.(client := Ready(call))
  }

  ghost predicate Next(setup: Setup, s: State, t: State) {
    || ServerReads(setup, s, t) || ServerReadFails(setup, s, t)
    || ClientReadsGreeting(s, t) || ClientWrites(s, t) || ClientWriteFails(s, t)
    || ClientReads(s, t) || ClientReadFails(s, t) || ClientCalls(s, t)
  }

  ghost predicate NextAt(setup: Setup, run: seq<State>, k: nat)
    requires 0 < k < |run|
  {
    Next(setup, run[k - 1], run[k])
  }

  ghost predicate Run(setup: Setup, run: seq<State>) {
    && run != [] && Initial(setup, run[0])
    && forall k | 0 < k < |run| :: NextAt(setup, run, k)
  }

  // ---------- One call, one answer ----------

  /** The reply answers exactly this call. A busy poll is acknowledged only if it was configured as asked. */
  ghost predicate Good(setup: Setup, log: seq<Event>, call: Call, reply: Read) {
    match call
    case GetServerVersion => reply == Message(VERSION, 0)
    case RequestXSKmapFD(device) =>
      var request := Delivered(MapRequest(device));
      || (reply == Message(RESPONSE_BAD_REQUEST, 0) && !exists iface :: AsksForMap(request, iface))
      || exists iface ::
           AsksForMap(request, iface)
           && reply == if iface in setup.devices then Packet(RESPONSE_FD_ACK, setup.devices[iface])
                       else Message(RESPONSE_FD_NAK, 0)
    case RequestBusyPoll(timeout, budget, fd) =>
      || (reply == Message(RESPONSE_BUSY_POLL_ACK, 0) && Polled(fd, timeout, budget, true) in log)
      || (reply == Message(RESPONSE_BUSY_POLL_NAK, 0) && Polled(fd, timeout, budget, false) in log)
  }

  lemma GoodLater(setup: Setup, log: seq<Event>, more: seq<Event>, call: Call, reply: Read)
    requires Good(setup, log, call, reply)
    ensures Good(setup, log + more, call, reply)
  {
  }

  lemma PacketsOne(a: Event)
    ensures Packets([a]) == if a.Sent? && a.ok then [Packet(a.text, a.fd)] else []
  {
  }

  lemma PacketsTwo(a: Event, b: Event)
    requires !a.Sent?
    ensures Packets([a, b]) == Packets([b])
  {
    assert [a, b][1..] == [b];
  }

  lemma PacketsThree(a: Event, b: Event, c: Event)
    requires !a.Sent? && !b.Sent?
    ensures Packets([a, b, c]) == Packets([c])
  {
    assert [a, b, c][1..] == [b, c];
    PacketsTwo(b, c);
  }

  lemma ResponsesFit(text: string)
    requires |text| <= MSG_BUF_SIZE
    ensures Delivered(text) == text
  {
  }

  /** The server's round for a request of the client. */
  function CallTurn(setup: Setup, call: Call, n: nat): Step {
    Turn(Answers(setup.o, setup.devices), Packet(RequestText(call), RequestFd(call)), n)
  }

  lemma VersionTurn(setup: Setup, n: nat)
    ensures CallTurn(setup, GetServerVersion, n).events
         == [Received(REQUEST_VERSION, 0), Answer(setup.o, n + 1, VERSION, -1)]
  {
    KeywordsApart();
  }

  lemma PollTurn(setup: Setup, timeout: int, budget: int, fd: int, n: nat)
    requires Proper(RequestBusyPoll(timeout, budget, fd))
    ensures var ok := setup.o.pollOk(n + 1);
      CallTurn(setup, RequestBusyPoll(timeout, budget, fd), n).events
      == [Received(Delivered(PollRequest(timeout, budget)), fd), Polled(fd, timeout, budget, ok),
          Answer(setup.o, n + 2, if ok then RESPONSE_BUSY_POLL_ACK else RESPONSE_BUSY_POLL_NAK, -1)]
  {
    var request, ok := Delivered(PollRequest(timeout, budget)), setup.o.pollOk(n + 1);
    PollRoundTrip(timeout, budget);
    PollIsAnswered(setup.o, setup.devices, request, timeout, budget, fd, n + 1);
    PrependToTwo(Received(request, fd), Polled(fd, timeout, budget, ok),
                 Answer(setup.o, n + 2, if ok then RESPONSE_BUSY_POLL_ACK else RESPONSE_BUSY_POLL_NAK, -1));
  }

  lemma MapTurn(setup: Setup, device: string, n: nat)
    ensures var request := Delivered(MapRequest(device));
      var step := HandleFd(setup.o, setup.devices, request, n + 1);
      && CallTurn(setup, RequestXSKmapFD(device), n).events == [Received(request, 0), step.events[0]]
  {
    var request := Delivered(MapRequest(device));
    assert HasPrefix(request, REQUEST_FD);
    PrefixOccurs(request, REQUEST_FD);
  }

  lemma MapGood(setup: Setup, log: seq<Event>, device: string, n: nat)
    ensures var step := HandleFd(setup.o, setup.devices, Delivered(MapRequest(device)), n);
      Good(setup, log, RequestXSKmapFD(device), Packet(step.events[0].text, step.events[0].fd))
  {
    var request := Delivered(MapRequest(device));
    HandleFdGrammar(setup.o, setup.devices, request, n);
    ResponsesFit(RESPONSE_FD_NAK);
    ResponsesFit(RESPONSE_BAD_REQUEST);
    var words := Split(request, ",");
    if |words| == 2 && words[0] == REQUEST_FD {
      TwoWords(request, REQUEST_FD, Without(words[1], ' '));
      assert AsksForMap(request, Without(words[1], ' '));
    }
  }

  lemma MapAnswered(setup: Setup, log: seq<Event>, device: string)
    ensures var turn := CallTurn(setup, RequestXSKmapFD(device), |log|);
            var packets := Packets(turn.events);
      |packets| <= 1 && (packets != [] ==> Good(setup, log + turn.events, RequestXSKmapFD(device), packets[0]))
  {
    var n := |log|;
    var events := CallTurn(setup, RequestXSKmapFD(device), n).events;
    MapTurn(setup, device, n);
    PacketsTwo(events[0], events[1]);
    MapGood(setup, log + events, device, n + 1);
  }

  lemma PollAnswered(setup: Setup, log: seq<Event>, call: Call)
    requires call.RequestBusyPoll? && Proper(call)
    ensures var turn := CallTurn(setup, call, |log|);
            var packets := Packets(turn.events);
      |packets| <= 1 && (packets != [] ==> Good(setup, log + turn.events, call, packets[0]))
  {
    var events := CallTurn(setup, call, |log|).events;
    PollTurn(setup, call.timeout, call.budget, call.fd, |log|);
    PacketsThree(events[0], events[1], events[2]);
    assert events[1] in log + events;
    ResponsesFit(RESPONSE_BUSY_POLL_ACK);
    ResponsesFit(RESPONSE_BUSY_POLL_NAK);
  }

  /** A proper call gets at most one answer, and a good one. */
  lemma CallAnswered(setup: Setup, log: seq<Event>, call: Call)
    requires Proper(call)
    ensures var turn := CallTurn(setup, call, |log|);
            var packets := Packets(turn.events);
      |packets| <= 1 && (packets != [] ==> Good(setup, log + turn.events, call, packets[0]))
  {
    var n := |log|;
    var events := CallTurn(setup, call, n).events;
    match call
    case GetServerVersion =>
      VersionTurn(setup, n);
      PacketsTwo(events[0], events[1]);
    case RequestXSKmapFD(device) =>
      MapAnswered(setup, log, device);
    case RequestBusyPoll(timeout, budget, fd) =>
      PollAnswered(setup, log, call);
  }

  // ---------- The invariant ----------

  /** While a call waits for its answer, at most one message is under way: the request or a good reply. */
  ghost predicate InFlight(setup: Setup, s: State) {
    match s.client
    case Awaiting(call) =>
      && (s.server == Serving ==> s.up == [] || (s.up == [Packet(RequestText(call), RequestFd(call))] && s.down == []))
      && |s.down| <= 1 && (s.down != [] ==> Good(setup, s.log, call, s.down[0]))
    case _ => s.down == [] && (s.server == Serving ==> s.up == [])
  }

  predicate AllRefusals(setup: Setup, packets: seq<Read>) {
    && |packets| <= 1
    && (packets != [] ==> setup.pods.None? && packets[0] == Packet(RESPONSE_HOST_NAK, -1))
  }

  /** What can be in the queue before the answer to the connection request has been read. */
  predicate GreetingAnswer(setup: Setup, s: State) {
    s.down != [] ==>
      s.down[0].Message? && if s.down[0].text == RESPONSE_HOST_OK then s.down == [s.down[0]]
      else s.server == Stopped && AllRefusals(setup, s.down[1..])
  }

  predicate AllMessages(packets: seq<Read>) {
    forall k | 0 <= k < |packets| :: packets[k].Message?
  }

  ghost predicate Answered(setup: Setup, log: seq<Event>, e: Exchange) {
    && e.reply.Message?
    && if e.connected then Good(setup, log, e.call, e.reply)
       else setup.pods.None? && e.reply == Packet(RESPONSE_HOST_NAK, -1)
  }

  ghost predicate Inv(setup: Setup, s: State) {
    && AllMessages(s.down)
    && (!s.client.Idle? ==> Proper(s.client.call))
    && (s.server == Listening ==>
          s.client.Greeting? && !s.connected && s.up == [Hello(setup)] && s.down == [] && s.log == [] && s.taken == [])
    && (s.connected ==> !s.client.Greeting? && InFlight(setup, s))
    && (!s.connected && s.client.Greeting? ==>
          GreetingAnswer(setup, s) && (s.server == Serving ==> s.up == []))
    && (!s.connected && !s.client.Greeting? ==> s.server == Stopped && AllRefusals(setup, s.down))
    && (forall k | 0 <= k < |s.answers| :: Answered(setup, s.log, s.answers[k]))
  }

  lemma AnswersKept(setup: Setup, log: seq<Event>, more: seq<Event>, answers: seq<Exchange>)
    requires forall k | 0 <= k < |answers| :: Answered(setup, log, answers[k])
    ensures forall k | 0 <= k < |answers| :: Answered(setup, log + more, answers[k])
  {
    forall k | 0 <= k < |answers| ensures Answered(setup, log + more, answers[k]) {
      assert Answered(setup, log, answers[k]);
      if answers[k].connected {
        GoodLater(setup, log, more, answers[k].call, answers[k].reply);
      }
    }
  }

  /** What the opening round puts on the wire. */
  lemma OpeningPackets(setup: Setup, read: Read)
    ensures var opening := Opening(setup.o, setup.devices, setup.pods, setup.resource, read);
            var packets := Packets(opening.events);
      && AllMessages(packets)
      && (if opening.go then packets == [] || packets == [Packet(RESPONSE_HOST_OK, -1)]
          else packets != [] ==> packets[0].text != RESPONSE_HOST_OK && AllRefusals(setup, packets[1..]))
  {
    ResponsesFit(RESPONSE_HOST_OK);
    ResponsesFit(RESPONSE_HOST_NAK);
    ResponsesFit(RESPONSE_ERROR);
    var events := Opening(setup.o, setup.devices, setup.pods, setup.resource, read).events;
    if read.Message? && |events| == 3 {
      assert events == [events[0], events[1], events[2]];
      assert events[1..] == [events[1], events[2]] && [events[1], events[2]][1..] == [events[2]];
      PacketsOne(events[2]);
    } else if read.Message? && |events| == 2 {
      assert events == [events[0], events[1]];
      PacketsTwo(events[0], events[1]);
    }
  }

  lemma FailedReadKeeps(setup: Setup, s: State, t: State)
    requires Inv(setup, s) && ServerReadFails(setup, s, t)
    ensures Inv(setup, t)
  {
    assert ServerTurn(setup, s, Failure) == Step([ReadFailed], false);
    PacketsOne(ReadFailed);
    assert t.down == s.down;
    AnswersKept(setup, s.log, [ReadFailed], s.answers);
    if s.connected && s.client.Awaiting? && s.down != [] {
      GoodLater(setup, s.log, [ReadFailed], s.client.call, s.down[0]);
    }
  }

  lemma OpeningKeeps(setup: Setup, s: State, turn: Step)
    requires Inv(setup, s) && s.server == Listening
    requires AllMessages(Packets(turn.events))
    requires if turn.go then Packets(turn.events) == [] || Packets(turn.events) == [Packet(RESPONSE_HOST_OK, -1)]
             else Packets(turn.events) != [] ==>
                    Packets(turn.events)[0].text != RESPONSE_HOST_OK && AllRefusals(setup, Packets(turn.events)[1..])
    ensures Inv(setup, Advance(s.(up := []), Hello(setup), turn))
  {
    ResponsesFit(RESPONSE_HOST_OK);
    assert s.down + Packets(turn.events) == Packets(turn.events);
    AnswersKept(setup, s.log, turn.events, s.answers);
  }

  lemma CallKeeps(setup: Setup, s: State, turn: Step)
    requires Inv(setup, s) && s.server == Serving && s.connected && s.client.Awaiting? && s.down == []
    requires |Packets(turn.events)| <= 1
    requires Packets(turn.events) != [] ==>
               && Packets(turn.events)[0].Message?
               && Good(setup, s.log + turn.events, s.client.call, Packets(turn.events)[0])
    ensures Inv(setup, Advance(s.(up := []), Packet(RequestText(s.client.call), RequestFd(s.client.call)), turn))
  {
    assert s.down + Packets(turn.events) == Packets(turn.events);
    AnswersKept(setup, s.log, turn.events, s.answers);
  }

  lemma ServerReadKeeps(setup: Setup, s: State, t: State)
    requires Inv(setup, s) && ServerReads(setup, s, t)
    ensures Inv(setup, t)
  {
    assert s.up == [s.up[0]];
    assert s.up[1..] == [];
    if s.server == Listening {
      OpeningPackets(setup, Hello(setup));
      OpeningKeeps(setup, s, Opening(setup.o, setup.devices, setup.pods, setup.resource, Hello(setup)));
    } else {
      CallAnswered(setup, s.log, s.client.call);
      CallKeeps(setup, s, CallTurn(setup, s.client.call, |s.log|));
    }
  }

  lemma ClientKeeps(setup: Setup, s: State, t: State)
    requires Inv(setup, s)
    requires ClientReadsGreeting(s, t) || ClientWrites(s, t) || ClientWriteFails(s, t)
             || ClientReads(s, t) || ClientReadFails(s, t) || ClientCalls(s, t)
    ensures Inv(setup, t)
  {
  }

  lemma {:induction false} Invariant(setup: Setup, run: seq<State>, k: nat)
    requires Run(setup, run) && k < |run|
    ensures Inv(setup, run[k])
  {
    if k > 0 {
      Invariant(setup, run, k - 1);
      var s, t := run[k - 1], run[k];
      assert NextAt(setup, run, k);
      if ServerReads(setup, s, t) {
        ServerReadKeeps(setup, s, t);
      } else if ServerReadFails(setup, s, t) {
        FailedReadKeeps(setup, s, t);
      } else {
        ClientKeeps(setup, s, t);
      }
    }
  }

  // ---------- Main results ----------

  /**
   Client and server stay in lockstep in every reachable state: between the calls of a connected client both queues
   are empty while the server serves, every reply a connected client has read answers the call it was read for, and
   a client that was refused can only ever have read a refusal.
   */
  lemma ClientServerLockstep(setup: Setup, run: seq<State>, k: nat)
    requires Run(setup, run) && k < |run|
    ensures var s := run[k];
      && (s.connected && s.client.Idle? ==> s.down == [] && (s.server == Serving ==> s.up == []))
      && (s.connected ==> |s.down| <= 1 && (s.server == Serving ==> |s.up| + |s.down| <= 1))
      && (forall j | 0 <= j < |s.answers| :: Answered(setup, s.log, s.answers[j]))
  {
    Invariant(setup, run, k);
  }

  lemma RefusalIsNotGood(setup: Setup, log: seq<Event>, call: Call)
    ensures !Good(setup, log, call, Packet(RESPONSE_HOST_NAK, -1))
  {
    ResponsesFit(RESPONSE_HOST_NAK);
    ResponsesFit(RESPONSE_FD_ACK);
  }

  /** Exactly when a reply answers the call it was read for: when the client is connected. */
  lemma GoodExactlyWhenConnected(setup: Setup, run: seq<State>, k: nat, j: nat)
    requires Run(setup, run) && k < |run| && j < |run[k].answers|
    ensures var e := run[k].answers[j]; Good(setup, run[k].log, e.call, e.reply) <==> e.connected
  {
    Invariant(setup, run, k);
    var e := run[k].answers[j];
    assert Answered(setup, run[k].log, e);
    RefusalIsNotGood(setup, run[k].log, e.call);
  }

  /** What RequestXSKmapFD returns to a connected client for a device name that fits the buffer. */
  lemma MapResult(setup: Setup, log: seq<Event>, device: string, reply: Read)
    requires Good(setup, log, RequestXSKmapFD(device), reply) && reply.Message?
    requires |device| <= 51 && ',' !in device && ' ' !in device
    ensures ResultOf(RequestXSKmapFD(device), reply)
         == if device !in setup.devices then Failed
            else Descriptor(if setup.devices[device] > 0 then setup.devices[device] else 0)
  {
    var request := Delivered(MapRequest(device));
    MapRoundTrip(device);
    ResponsesDiffer();
    ResponsesFit(RESPONSE_FD_ACK);
    forall iface | AsksForMap(request, iface) ensures iface == device {
      TwoWords(request, REQUEST_FD, iface);
      TwoWords(request, REQUEST_FD, device);
    }
  }

  /** The conversation the server has had so far, whatever it reads next. */
  ghost predicate Conversation(open: Read -> Step, respond: Responder, server: ServerState, log: seq<Event>,
                               taken: seq<Read>, rest: seq<Read>)
  {
    Converse(open, respond, taken + rest)
    == match server
       case Listening => Converse(open, respond, rest)
       case Serving => log + Loop(respond, rest, |log|)
       case Stopped => log
  }

  lemma UnrollLoop(respond: Responder, read: Read, rest: seq<Read>, n: nat)
    ensures var turn := Turn(respond, read, n);
      Loop(respond, [read] + rest, n)
      == if turn.go then turn.events + Loop(respond, rest, n + |turn.events|) else turn.events
  {
    assert ([read] + rest)[1..] == rest;
  }

  lemma UnrollConverse(open: Read -> Step, respond: Responder, read: Read, rest: seq<Read>)
    ensures var turn := open(read);
      Converse(open, respond, [read] + rest)
      == if turn.go then turn.events + Loop(respond, rest, |turn.events|) else turn.events
  {
    assert ([read] + rest)[1..] == rest;
  }

  /** A round of the server is the next part of the conversation. */
  lemma ConversationRound(open: Read -> Step, respond: Responder, server: ServerState, log: seq<Event>,
                          taken: seq<Read>, read: Read, rest: seq<Read>, turn: Step)
    requires server != Stopped && (server == Listening ==> log == [])
    requires turn == if server == Listening then open(read) else Turn(respond, read, |log|)
    requires Conversation(open, respond, server, log, taken, [read] + rest)
    ensures Conversation(open, respond, if turn.go then Serving else Stopped, log + turn.events, taken + [read], rest)
  {
    ConcatAssoc(taken, [read], rest);
    if server == Listening {
      UnrollConverse(open, respond, read, rest);
      assert log + turn.events == turn.events;
    } else {
      UnrollLoop(respond, read, rest, |log|);
      ConcatAssoc(log, turn.events, Loop(respond, rest, |log| + |turn.events|));
    }
  }

  /** A step either leaves the server alone or is one of its rounds. */
  predicate ServerPart(open: Read -> Step, respond: Responder, s: State, t: State) {
    || (t.server == s.server && t.log == s.log && t.taken == s.taken)
    || (&& s.server != Stopped && |t.taken| == |s.taken| + 1
        && var read := t.taken[|s.taken|];
           var turn := if s.server == Listening then open(read) else Turn(respond, read, |s.log|);
           && t.server == (if turn.go then Serving else Stopped)
           && t.log == s.log + turn.events && t.taken == s.taken + [read])
  }

  predicate ServerPartAt(open: Read -> Step, respond: Responder, run: seq<State>, j: nat)
    requires 0 < j < |run|
  {
    ServerPart(open, respond, run[j - 1], run[j])
  }

  /** Whatever the server reads next, its log so far is the beginning of the specified conversation. */
  lemma {:induction false} ConversationSoFar(open: Read -> Step, respond: Responder, run: seq<State>, k: nat,
                                             rest: seq<Read>)
    requires k < |run| && run[0].server == Listening && run[0].log == [] && run[0].taken == []
    requires forall j | 0 < j < |run| :: ServerPartAt(open, respond, run, j)
    requires forall j | 0 <= j < |run| :: run[j].server == Listening ==> run[j].log == []
    ensures Conversation(open, respond, run[k].server, run[k].log, run[k].taken, rest)
  {
    if k == 0 {
      assert run[0].taken + rest == rest;
    } else {
      var s, t := run[k - 1], run[k];
      assert ServerPartAt(open, respond, run, k);
      if t.taken == s.taken {
        ConversationSoFar(open, respond, run, k - 1, rest);
      } else {
        var read := t.taken[|s.taken|];
        ConversationSoFar(open, respond, run, k - 1, [read] + rest);
        ConversationRound(open, respond, s.server, s.log, s.taken, read, rest,
                          if s.server == Listening then open(read) else Turn(respond, read, |s.log|));
      }
    }
  }

  lemma StepIsServerPart(setup: Setup, s: State, t: State)
    requires Next(setup, s, t)
    ensures ServerPart(Opens(setup.o, setup.devices, setup.pods, setup.resource), Answers(setup.o, setup.devices), s, t)
  {
  }

  /** The server of the two-queue system does exactly what Serve says, so its log is safe as well. */
  lemma StoppedServerServed(setup: Setup, run: seq<State>, k: nat)
    requires Run(setup, run) && k < |run| && run[k].server == Stopped
    ensures run[k].log == Serve(setup.o, setup.devices, setup.pods, setup.resource, run[k].taken)
    ensures Safe(setup.devices, run[k].log)
  {
    var open, respond := Opens(setup.o, setup.devices, setup.pods, setup.resource), Answers(setup.o, setup.devices);
    forall j | 0 < j < |run| ensures ServerPartAt(open, respond, run, j) {
      assert NextAt(setup, run, j);
      StepIsServerPart(setup, run[j - 1], run[j]);
    }
    forall j | 0 <= j < |run| ensures run[j].server == Listening ==> run[j].log == [] {
      Invariant(setup, run, j);
    }
    ConversationSoFar(open, respond, run, k, []);
    assert run[k].taken + [] == run[k].taken;
    DescriptorSafety(setup.o, setup.devices, setup.pods, setup.resource, run[k].taken);
  }

  lemma MapOneReply(setup: Setup, device: string, n: nat)
    requires forall m: nat :: setup.o.writeOk(m)
    ensures |Packets(CallTurn(setup, RequestXSKmapFD(device), n).events)| == 1
  {
    var events := CallTurn(setup, RequestXSKmapFD(device), n).events;
    MapTurn(setup, device, n);
    PacketsTwo(events[0], events[1]);
    HandleFdGrammar(setup.o, setup.devices, Delivered(MapRequest(device)), n + 1);
  }

  lemma FourEvents(first: Event, a: Event, polled: Event, b: Event)
    requires first.Received? && polled.Polled? && a.Sent? && a.ok && b.Sent? && b.ok
    ensures |Packets([first, a, polled, b])| == 2
  {
    assert [first, a, polled, b][1..] == [a, polled, b] && [a, polled, b][1..] == [polled, b];
    PacketsTwo(polled, b);
    PacketsOne(b);
  }

  /** While writes succeed a call gets exactly one reply, except a busy poll without a descriptor: it gets two. */
  lemma OneReplyExactly(setup: Setup, call: Call, n: nat)
    requires forall m: nat :: setup.o.writeOk(m)
    requires call.RequestBusyPoll? ==>
               INT64_MIN <= call.timeout <= INT64_MAX && INT64_MIN <= call.budget <= INT64_MAX
    ensures |Packets(CallTurn(setup, call, n).events)| == if call.RequestBusyPoll? && call.fd <= 0 then 2 else 1
  {
    var events := CallTurn(setup, call, n).events;
    match call
    case GetServerVersion =>
      VersionTurn(setup, n);
      PacketsTwo(events[0], events[1]);
    case RequestXSKmapFD(device) =>
      MapOneReply(setup, device, n);
    case RequestBusyPoll(timeout, budget, fd) =>
      if fd > 0 {
        PollTurn(setup, timeout, budget, fd, n);
        PacketsThree(events[0], events[1], events[2]);
      } else {
        BarePollTurn(setup, timeout, budget, fd, n);
        FourEvents(events[0], events[1], events[2], events[3]);
      }
  }

  lemma BarePollTurn(setup: Setup, timeout: int, budget: int, fd: int, n: nat)
    requires fd <= 0 && setup.o.writeOk(n + 1)
    requires INT64_MIN <= timeout <= INT64_MAX && INT64_MIN <= budget <= INT64_MAX
    ensures var ok := setup.o.pollOk(n + 2);
      CallTurn(setup, RequestBusyPoll(timeout, budget, fd), n).events
      == [Received(Delivered(PollRequest(timeout, budget)), 0), Answer(setup.o, n + 1, RESPONSE_BUSY_POLL_NAK, -1),
          Polled(0, timeout, budget, ok),
          Answer(setup.o, n + 3, if ok then RESPONSE_BUSY_POLL_ACK else RESPONSE_BUSY_POLL_NAK, -1)]
  {
    var request, ok := Delivered(PollRequest(timeout, budget)), setup.o.pollOk(n + 2);
    PollRoundTrip(timeout, budget);
    BarePollIsAnswered(setup.o, setup.devices, request, timeout, budget, 0, n + 1);
    PrependToThree(Received(request, 0), Answer(setup.o, n + 1, RESPONSE_BUSY_POLL_NAK, -1),
                   Polled(0, timeout, budget, ok),
                   Answer(setup.o, n + 3, if ok then RESPONSE_BUSY_POLL_ACK else RESPONSE_BUSY_POLL_NAK, -1));
  }

  /**
   The hypothesis that the client is connected is needed: when the pod resources API fails, the server writes two
   messages, the client takes the first as the answer to its greeting, and its busy poll call reads the second,
   "/host_nak", as a success.
   */
  lemma RefusedPollReportsSuccess(setup: Setup) returns (run: seq<State>)
    requires setup.pods.None? && |setup.hostname| <= 54 && ',' !in setup.hostname && ' ' !in setup.hostname
    requires forall m: nat :: setup.o.writeOk(m)
    ensures Run(setup, run)
    ensures var s := run[|run| - 1];
      && !s.connected
      && s.answers == [Exchange(false, RequestBusyPoll(0, 0, 1), Packet(RESPONSE_HOST_NAK, -1))]
      && ResultOf(s.answers[0].call, s.answers[0].reply) == Done
  {
    var call := RequestBusyPoll(0, 0, 1);
    var s0 := State(false, Greeting(call), Listening, [Hello(setup)], [], [], [], []);
    var turn := RefusalTurn(setup);
    var s1 := Advance(s0.(up := []), Hello(setup), turn);
    assert ServerReads(setup, s0, s1) by {
      assert s0.up[1..] == [];
    }
    ResponsesFit(RESPONSE_ERROR);
    ResponsesFit(RESPONSE_HOST_NAK);
    var s2 := s1.(client := Ready(call), down := s1.down[1..]);
    assert ClientReadsGreeting(s1, s2);
    var s3 := s2.(client := Awaiting(call), up := s2.up + [Packet(RequestText(call), RequestFd(call))]);
    var s4 := s3.(client := Idle, down := s3.down[1..], answers := s3.answers + [Exchange(false, call, s3.down[0])]);
    run := [s0, s1, s2, s3, s4];
    assert Next(setup, s0, s1) && Next(setup, s1, s2) && Next(setup, s2, s3) && Next(setup, s3, s4);
  }

  lemma RefusalTurn(setup: Setup) returns (turn: Step)
    requires setup.pods.None? && |setup.hostname| <= 54 && ',' !in setup.hostname && ' ' !in setup.hostname
    requires forall m: nat :: setup.o.writeOk(m)
    ensures turn == Opening(setup.o, setup.devices, setup.pods, setup.resource, Hello(setup))
    ensures !turn.go && Packets(turn.events) == [Packet(RESPONSE_ERROR, -1), Packet(RESPONSE_HOST_NAK, -1)]
    ensures turn.events != []
  {
    var a, b := Answer(setup.o, 1, RESPONSE_ERROR, -1), Answer(setup.o, 2, RESPONSE_HOST_NAK, -1);
    ConnectRoundTrip(setup.hostname);
    UnknownPodIsRefusedTwice(setup.o, setup.devices, setup.resource, Hello(setup).text, setup.hostname, 1);
    PrependToTwo(Received(Hello(setup).text, 0), a, b);
    turn := Step([Received(Hello(setup).text, 0), a, b], false);
    assert turn.events[1..] == [a, b] && [a, b][1..] == [b];
    PacketsOne(b);
  }
}

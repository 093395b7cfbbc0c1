// The Unix domain socket handshake of internal/udsserver/udsserver.go as a function from
// what the server reads to everything it does, and what holds of every such conversation.

module Handshake {
  import opened Options
  import opened Sequences
  import opened Text
  import opened Constants

  // ---------- What the server sees and does ----------

  /** A read either delivers a message and a descriptor number (0 for none) or fails. */
  datatype Read = Message(text: string, fd: int) | Failure

  /** A write carries a descriptor only if `fd` is positive. */
  datatype Event =
    | Received(text: string, fd: int)
    | ReadFailed
    | Sent(text: string, fd: int, ok: bool)
    | Polled(fd: int, timeout: int, budget: int, ok: bool)

  /** Whether the write, or the busy poll configuration, that becomes event number n succeeds. */
  datatype Outcomes = Outcomes(writeOk: nat -> bool, pollOk: nat -> bool)

  /** The containers of a pod, each with its device lists by resource name. */
  datatype DeviceList = DeviceList(resource: string, ids: seq<string>)
  datatype Pod = Pod(containers: seq<seq<DeviceList>>)

  function Answer(o: Outcomes, n: nat, text: string, fd: int): Event {
    Sent(text, fd, o.writeOk(n))
  }

  /** The events a request causes, and whether the server goes on to the next one. */
  datatype Step = Step(events: seq<Event>, go: bool)

  function Reply(o: Outcomes, n: nat, text: string, fd: int): Step {
    Step([Answer(o, n, text, fd)], o.writeOk(n))
  }

  // ---------- The handlers ----------

  function HandleFd(o: Outcomes, devices: map<string, int>, request: string, n: nat): Step {
    var words := Split(request, ",");
    if |words| != 2 || words[0] != REQUEST_FD then Reply(o, n, RESPONSE_BAD_REQUEST, -1)
    else
      var iface := Without(words[1], ' ');
      if iface in devices then Reply(o, n, RESPONSE_FD_ACK, devices[iface]) else Reply(o, n, RESPONSE_FD_NAK, -1)
  }

  datatype PollArgs = NotAPoll | BadNumber | PollArgs(timeout: int, budget: int)

  function ParsePoll(request: string): PollArgs {
    var words := Split(request, ",");
    if |words| != 3 || words[0] != REQUEST_BUSY_POLL then NotAPoll
    else
      match (Atoi(Without(words[1], ' ')), Atoi(Without(words[2], ' ')))
      case (Some(timeout), Some(budget)) => PollArgs(timeout, budget)
      case _ => BadNumber
  }

  function ConfigureBusyPoll(o: Outcomes, request: string, fd: int, n: nat): Step {
    match ParsePoll(request)
    case NotAPoll => Reply(o, n, RESPONSE_BAD_REQUEST, -1)
    case BadNumber => Step([], false)
    case PollArgs(timeout, budget) =>
      var polled := Polled(fd, timeout, budget, o.pollOk(n));
      if polled.ok then Step([polled, Answer(o, n + 1, RESPONSE_BUSY_POLL_ACK, -1)], true)
      else Step([polled, Answer(o, n + 1, RESPONSE_BUSY_POLL_NAK, -1)], false)
  }

  /** A missing descriptor is refused, and then the request is handled all the same. */
  function HandleBusyPoll(o: Outcomes, request: string, fd: int, n: nat): Step {
    if fd > 0 then ConfigureBusyPoll(o, request, fd, n)
    else
      var nak := Answer(o, n, RESPONSE_BUSY_POLL_NAK, -1);
      if !nak.ok then Step([nak], false)
      else
        var rest := ConfigureBusyPoll(o, request, fd, n + 1);
        Step([nak] + rest.events, rest.go)
  }

  function Respond(o: Outcomes, devices: map<string, int>, request: string, fd: int, n: nat): Step {
    if Contains(request, REQUEST_FD) then HandleFd(o, devices, request, n)
    else if request == REQUEST_VERSION then Reply(o, n, VERSION, -1)
    else if Contains(request, REQUEST_BUSY_POLL) then HandleBusyPoll(o, request, fd, n)
    else if request == REQUEST_FIN then Step([Answer(o, n, RESPONSE_FIN_ACK, -1)], false)
    else Reply(o, n, RESPONSE_BAD_REQUEST, -1)
  }

  /** The answer to a request with its descriptor, from an event number on. */
  type Responder = (string, int, nat) -> Step

  function Answers(o: Outcomes, devices: map<string, int>): Responder {
    (request: string, fd: int, n: nat) => Respond(o, devices, request, fd, n)
  }

  /** One round of the request loop, from event number n on. */
  function Turn(respond: Responder, read: Read, n: nat): Step {
    match read
    case Failure => Step([ReadFailed], false)
    case Message(request, fd) =>
      var step := respond(request, fd, n + 1);
      Step([Received(request, fd)] + step.events, step.go)
  }

  /** The request loop. When nothing is left to read, reading fails. */
  function Loop(respond: Responder, inbox: seq<Read>, n: nat): seq<Event> {
    if inbox == [] then [ReadFailed]
    else
      var turn := Turn(respond, inbox[0], n);
      if turn.go then turn.events + Loop(respond, inbox[1..], n + |turn.events|) else turn.events
  }

  /** What is left of the loop after one round. */
  lemma LoopRound(respond: Responder, log: seq<Event>, inbox: seq<Read>)
    ensures var turn := Turn(respond, if inbox == [] then Failure else inbox[0], |log|);
            var now := log + turn.events;
      log + Loop(respond, inbox, |log|)
      == if turn.go then now + Loop(respond, if inbox == [] then [] else inbox[1..], |now|) else now
  {
    if inbox != [] {
      var turn := Turn(respond, inbox[0], |log|);
      ConcatAssoc(log, turn.events, Loop(respond, inbox[1..], |log| + |turn.events|));
    }
  }

  // ---------- Admission ----------

  /** The ids a container lists for a resource. */
  function IdsFor(container: seq<DeviceList>, resource: string): seq<string> {
    if container == [] then []
    else
      var last := container[|container| - 1];
      IdsFor(container[..|container| - 1], resource) + if last.resource == resource then last.ids else []
  }

  predicate Matches(ids: seq<string>, known: set<string>) {
    ids != [] && |ids| == |known| && forall k | 0 <= k < |ids| :: ids[k] in known
  }

  predicate Accepts(pod: Pod, resource: string, known: set<string>) {
    exists c | 0 <= c < |pod.containers| :: Matches(IdsFor(pod.containers[c], resource), known)
  }

  datatype Verdict = Accepted | Rejected | Unknown

  /** `pods` is what the pod resources API answers; None is an error. */
  function Validate(pods: Option<map<string, Pod>>, podName: string, resource: string, known: set<string>): Verdict {
    if pods.None? then Unknown
    else if podName in pods.value && Accepts(pods.value[podName], resource, known) then Accepted
    else Rejected
  }

  /** The pod name of a well-formed connection request. */
  function ConnectName(request: string): Option<string> {
    var words := Split(request, ",");
    if |words| == 2 && words[0] == REQUEST_CONNECT then Some(Without(words[1], ' ')) else None
  }

  /** The first request; `go` says whether the pod is connected. */
  function Greet(o: Outcomes, devices: map<string, int>, pods: Option<map<string, Pod>>, resource: string,
                 request: string, n: nat): Step
  {
    if !Contains(request, REQUEST_CONNECT) then Step([], false)
    else
      var verdict := match ConnectName(request)
                     case None => Rejected
                     case Some(name) => Validate(pods, name, resource, devices.Keys);
      match verdict
      case Accepted => Step([Answer(o, n, RESPONSE_HOST_OK, -1)], true)
      case Rejected => Step([Answer(o, n, RESPONSE_HOST_NAK, -1)], false)
      case Unknown => Step([Answer(o, n, RESPONSE_ERROR, -1), Answer(o, n + 1, RESPONSE_HOST_NAK, -1)], false)
  }

  /** The round of the first request. */
  function Opening(o: Outcomes, devices: map<string, int>, pods: Option<map<string, Pod>>, resource: string,
                   read: Read): Step {
    match read
    case Failure => Step([ReadFailed], false)
    case Message(request, fd) =>
      var step := Greet(o, devices, pods, resource, request, 1);
      Step([Received(request, fd)] + step.events, step.go)
  }

  /** A conversation with the given first round and answers. */
  function Converse(open: Read -> Step, respond: Responder, inbox: seq<Read>): seq<Event> {
    if inbox == [] then [ReadFailed]
    else
      var turn := open(inbox[0]);
      if turn.go then turn.events + Loop(respond, inbox[1..], |turn.events|) else turn.events
  }

  function Opens(o: Outcomes, devices: map<string, int>, pods: Option<map<string, Pod>>,
                 resource: string): Read -> Step {
    read => Opening(o, devices, pods, resource, read)
  }

  /** Everything the server does on an accepted connection that delivers `inbox`. */
  function Serve(o: Outcomes, devices: map<string, int>, pods: Option<map<string, Pod>>, resource: string,
                 inbox: seq<Read>): seq<Event>
  {
    Converse(Opens(o, devices, pods, resource), Answers(o, devices), inbox)
  }

  // ---------- The grammar of requests ----------

  /** An XSK map request: the keyword, a comma and a comma-free rest; `iface` is the rest without spaces. */
  ghost predicate AsksForMap(request: string, iface: string) {
    exists rest :: request == REQUEST_FD + "," + rest && ',' !in rest && iface == Without(rest, ' ')
  }

  ghost predicate PollShape(request: string, a: string, b: string) {
    request == REQUEST_BUSY_POLL + "," + a + "," + b && ',' !in a && ',' !in b
  }

  ghost predicate AsksForPoll(request: string, timeout: int, budget: int) {
    exists a, b :: PollShape(request, a, b) && PollNumbers(a, b, timeout, budget)
  }

  ghost predicate AsksToConnect(request: string, podName: string) {
    exists rest :: request == REQUEST_CONNECT + "," + rest && ',' !in rest && podName == Without(rest, ' ')
  }

  lemma PrefixOccurs(s: string, prefix: string)
    requires HasPrefix(s, prefix)
    ensures Contains(s, prefix)
  {
    assert OccursAt(s, prefix, 0);
  }

  /** The two-word parse of a keyword request. */
  lemma TwoWords(request: string, keyword: string, value: string)
    requires ',' !in keyword
    ensures (var words := Split(request, ",");
             |words| == 2 && words[0] == keyword && value == Without(words[1], ' '))
            <==> exists rest :: request == keyword + "," + rest && ',' !in rest && value == Without(rest, ' ')
  {
    SplitInTwo(request, keyword, ',');
  }

  lemma ConnectGrammar(request: string, podName: string)
    ensures ConnectName(request) == Some(podName) <==> AsksToConnect(request, podName)
  {
    TwoWords(request, REQUEST_CONNECT, podName);
  }

  lemma MapRequestIsDispatched(request: string, iface: string)
    requires AsksForMap(request, iface)
    ensures Contains(request, REQUEST_FD)
  {
    PrefixOccurs(request, REQUEST_FD);
  }

  /** What the descriptor handler answers, in terms of the grammar. */
  lemma HandleFdGrammar(o: Outcomes, devices: map<string, int>, request: string, n: nat)
    ensures var step := HandleFd(o, devices, request, n);
      && step == Reply(o, n, step.events[0].text, step.events[0].fd)
      && (step.events[0].text == RESPONSE_FD_ACK <==> exists iface :: AsksForMap(request, iface) && iface in devices)
      && (step.events[0].text == RESPONSE_FD_NAK <==> exists iface :: AsksForMap(request, iface) && iface !in devices)
      && (step.events[0].text == RESPONSE_BAD_REQUEST <==> !exists iface :: AsksForMap(request, iface))
      && (forall iface | AsksForMap(request, iface) && iface in devices :: step.events[0].fd == devices[iface])
      && (step.events[0].text != RESPONSE_FD_ACK ==> step.events[0].fd == -1)
  {
    forall iface
      ensures AsksForMap(request, iface) <==>
              (var words := Split(request, ",");
               |words| == 2 && words[0] == REQUEST_FD && iface == Without(words[1], ' '))
    {
      TwoWords(request, REQUEST_FD, iface);
    }
    var words := Split(request, ",");
    if |words| == 2 && words[0] == REQUEST_FD {
      assert AsksForMap(request, Without(words[1], ' '));
    }
  }

  /** The words of a request of the busy poll shape, and only those. */
  lemma PollShapeWords(request: string, a: string, b: string)
    ensures PollShape(request, a, b) <==> Split(request, ",") == [REQUEST_BUSY_POLL, a, b]
  {
    if PollShape(request, a, b) {
      SplitOfThree(REQUEST_BUSY_POLL, a, b, ',');
    }
    if Split(request, ",") == [REQUEST_BUSY_POLL, a, b] {
      SplitThreeShape(request, ',');
    }
  }

  ghost predicate PollNumbers(a: string, b: string, timeout: int, budget: int) {
    Atoi(Without(a, ' ')) == Some(timeout) && Atoi(Without(b, ' ')) == Some(budget)
  }

  lemma PollParses(request: string, a: string, b: string, timeout: int, budget: int)
    requires PollShape(request, a, b) && PollNumbers(a, b, timeout, budget)
    ensures ParsePoll(request) == PollArgs(timeout, budget)
  {
    PollShapeWords(request, a, b);
  }

  /** The parse of a busy poll request agrees with the grammar. */
  lemma PollGrammar(request: string, timeout: int, budget: int)
    ensures ParsePoll(request) == PollArgs(timeout, budget) <==> AsksForPoll(request, timeout, budget)
  {
    if AsksForPoll(request, timeout, budget) {
      var a, b :| PollShape(request, a, b) && PollNumbers(a, b, timeout, budget);
      PollParses(request, a, b, timeout, budget);
    } else if ParsePoll(request) == PollArgs(timeout, budget) {
      var words := Split(request, ",");
      PollShapeWords(request, words[1], words[2]);
      assert words == [REQUEST_BUSY_POLL, words[1], words[2]];
      assert PollNumbers(words[1], words[2], timeout, budget);
    }
  }

  /** Spaces apart, a numeral's text has no slash. */
  lemma SpacedNumeral(a: string)
    requires Atoi(Without(a, ' ')).Some?
    ensures '/' !in a
  {
    NumeralShape(Without(a, ' '));
    WithoutKeeps(a, ' ', '/');
  }

  ghost predicate OnlyLeadingSlash(s: string) {
    forall k | 1 <= k < |s| :: s[k] != '/'
  }

  lemma OnlyLeadingSlashAppend(s: string, t: string)
    requires s != "" && OnlyLeadingSlash(s) && '/' !in t
    ensures OnlyLeadingSlash(s + t)
  {
    forall k | 1 <= k < |s + t| ensures (s + t)[k] != '/' {
      if k >= |s| {
        assert (s + t)[k] == t[k - |s|];
      }
    }
  }

  /** A text whose only slash is its first character can contain another keyword only as a prefix. */
  lemma LeadingSlash(s: string, keyword: string)
    requires |keyword| > 1 && keyword[0] == '/' && OnlyLeadingSlash(s)
    requires |s| > 1 && s[1] != keyword[1]
    ensures !Contains(s, keyword)
  {
    forall i: nat | i <= |s| ensures !OccursAt(s, keyword, i) {
      if i + |keyword| <= |s| {
        assert s[i..i + |keyword|][0] == s[i];
        assert s[i..i + |keyword|][1] == s[i + 1];
      }
    }
  }

  /** A well-formed busy poll request never looks like another request. */
  lemma PollRequestIsDispatched(request: string, timeout: int, budget: int)
    requires AsksForPoll(request, timeout, budget)
    ensures !Contains(request, REQUEST_FD) && request != REQUEST_VERSION && Contains(request, REQUEST_BUSY_POLL)
  {
    var a, b :| PollShape(request, a, b) && PollNumbers(a, b, timeout, budget);
    SpacedNumeral(a);
    SpacedNumeral(b);
    PollShapeIsDispatched(request, a, b);
  }

  lemma PollShapeIsDispatched(request: string, a: string, b: string)
    requires PollShape(request, a, b) && '/' !in a && '/' !in b
    ensures !Contains(request, REQUEST_FD) && request != REQUEST_VERSION && Contains(request, REQUEST_BUSY_POLL)
  {
    var tail := "," + a + "," + b;
    assert request == REQUEST_BUSY_POLL + tail;
    OnlyLeadingSlashAppend(REQUEST_BUSY_POLL, tail);
    LeadingSlash(request, REQUEST_FD);
    PrefixOccurs(request, REQUEST_BUSY_POLL);
  }

  ghost predicate Says(step: Step, text: string) {
    exists k | 0 <= k < |step.events| :: step.events[k].Sent? && step.events[k].text == text
  }

  /** Where the busy poll configuration happens when request handling starts at event number n. */
  function PollAt(fd: int, n: nat): nat {
    if fd > 0 then n else n + 1
  }

  lemma ResponsesDiffer()
    ensures RESPONSE_FD_ACK != RESPONSE_FD_NAK && RESPONSE_BUSY_POLL_ACK != RESPONSE_BUSY_POLL_NAK
    ensures RESPONSE_BAD_REQUEST != REQUEST_FIN && RESPONSE_HOST_OK != RESPONSE_FIN_ACK
  {
    assert RESPONSE_FD_ACK[4] != RESPONSE_FD_NAK[4];
    assert RESPONSE_BUSY_POLL_ACK[18] != RESPONSE_BUSY_POLL_NAK[18];
    assert RESPONSE_BAD_REQUEST[1] != REQUEST_FIN[1];
    assert RESPONSE_HOST_OK[1] != RESPONSE_FIN_ACK[1];
  }

  lemma SaysOne(o: Outcomes, n: nat, text: string, fd: int, t: string)
    ensures Says(Reply(o, n, text, fd), t) <==> t == text
  {
    assert Reply(o, n, text, fd).events[0] == Answer(o, n, text, fd);
  }

  /** Busy poll is acknowledged exactly for well-formed requests whose configuration succeeds. */
  lemma ConfigureSays(o: Outcomes, request: string, fd: int, n: nat)
    ensures Says(ConfigureBusyPoll(o, request, fd, n), RESPONSE_BUSY_POLL_ACK)
            <==> ParsePoll(request).PollArgs? && o.pollOk(n)
  {
    ResponsesDiffer();
    var step := ConfigureBusyPoll(o, request, fd, n);
    match ParsePoll(request)
    case NotAPoll => SaysOne(o, n, RESPONSE_BAD_REQUEST, -1, RESPONSE_BUSY_POLL_ACK);
    case BadNumber =>
    case PollArgs(_, _) =>
      assert step.events[1]
          == Answer(o, n + 1, if o.pollOk(n) then RESPONSE_BUSY_POLL_ACK else RESPONSE_BUSY_POLL_NAK, -1);
      assert step.events[0].Polled?;
  }

  /** What every answer to a busy poll request looks like. */
  predicate PollReply(e: Event) {
    && e.Sent? && e.fd == -1
    && (e.text == RESPONSE_BAD_REQUEST || e.text == RESPONSE_BUSY_POLL_ACK || e.text == RESPONSE_BUSY_POLL_NAK)
  }

  lemma PollReplies(o: Outcomes, request: string, fd: int, n: nat)
    ensures forall e | e in HandleBusyPoll(o, request, fd, n).events :: e.Polled? || PollReply(e)
  {
  }

  lemma HandlePollSays(o: Outcomes, request: string, fd: int, n: nat)
    ensures Says(HandleBusyPoll(o, request, fd, n), RESPONSE_BUSY_POLL_ACK)
            <==> ParsePoll(request).PollArgs? && (fd > 0 || o.writeOk(n)) && o.pollOk(PollAt(fd, n))
    ensures forall t | Says(HandleBusyPoll(o, request, fd, n), t) ::
              t == RESPONSE_BAD_REQUEST || t == RESPONSE_BUSY_POLL_ACK || t == RESPONSE_BUSY_POLL_NAK
  {
    ResponsesDiffer();
    PollReplies(o, request, fd, n);
    var step := HandleBusyPoll(o, request, fd, n);
    ConfigureSays(o, request, fd, PollAt(fd, n));
    if fd <= 0 && o.writeOk(n) {
      var rest := ConfigureBusyPoll(o, request, fd, n + 1);
      assert step.events[0].text != RESPONSE_BUSY_POLL_ACK;
      assert forall k | 0 <= k < |rest.events| :: step.events[k + 1] == rest.events[k];
      assert forall k | 1 <= k < |step.events| :: step.events[k] == rest.events[k - 1];
    }
  }

  /** Which answers a descriptor request can get. */
  lemma HandleFdSays(o: Outcomes, devices: map<string, int>, request: string, n: nat)
    ensures var step := HandleFd(o, devices, request, n);
      && (Says(step, RESPONSE_FD_ACK) <==> exists iface :: AsksForMap(request, iface) && iface in devices)
      && (Says(step, RESPONSE_FD_NAK) <==> exists iface :: AsksForMap(request, iface) && iface !in devices)
      && (forall t | Says(step, t) :: t == RESPONSE_FD_ACK || t == RESPONSE_FD_NAK || t == RESPONSE_BAD_REQUEST)
  {
    HandleFdGrammar(o, devices, request, n);
    var step := HandleFd(o, devices, request, n);
    forall t ensures Says(step, t) <==> t == step.events[0].text {
      SaysOne(o, n, step.events[0].text, step.events[0].fd, t);
    }
  }

  /**
   The overlapping Contains guards implement a grammar: each kind of answer is given exactly to the requests
   of one form, wherever keywords of other requests may occur in them.
   */
  lemma DispatchEqualsGrammar(o: Outcomes, devices: map<string, int>, request: string, fd: int, n: nat)
    ensures var step := Respond(o, devices, request, fd, n);
      && (Says(step, RESPONSE_FD_ACK) <==> exists iface :: AsksForMap(request, iface) && iface in devices)
      && (Says(step, RESPONSE_FD_NAK) <==> exists iface :: AsksForMap(request, iface) && iface !in devices)
      && (Says(step, VERSION) <==> request == REQUEST_VERSION)
      && (Says(step, RESPONSE_BUSY_POLL_ACK) <==>
            && (exists timeout, budget :: AsksForPoll(request, timeout, budget))
            && (fd > 0 || o.writeOk(n)) && o.pollOk(PollAt(fd, n)))
      && (Says(step, RESPONSE_FIN_ACK) <==> request == REQUEST_FIN)
  {
    ResponsesDiffer();
    forall iface | AsksForMap(request, iface) ensures Contains(request, REQUEST_FD) {
      MapRequestIsDispatched(request, iface);
    }
    forall timeout, budget
      ensures ParsePoll(request) == PollArgs(timeout, budget) <==> AsksForPoll(request, timeout, budget)
      ensures AsksForPoll(request, timeout, budget) ==>
                !Contains(request, REQUEST_FD) && Contains(request, REQUEST_BUSY_POLL)
    {
      PollGrammar(request, timeout, budget);
      if AsksForPoll(request, timeout, budget) {
        PollRequestIsDispatched(request, timeout, budget);
      }
    }
    DispatchCases(o, devices, request, fd, n);
    if Contains(request, REQUEST_FD) {
      HandleFdSays(o, devices, request, n);
    } else if Contains(request, REQUEST_BUSY_POLL) {
      HandlePollSays(o, request, fd, n);
    } else {
      assert Says(Respond(o, devices, request, fd, n), Respond(o, devices, request, fd, n).events[0].text);
    }
  }

  lemma KeywordsApart()
    ensures !Contains(REQUEST_VERSION, REQUEST_FD) && !Contains(REQUEST_VERSION, REQUEST_BUSY_POLL)
    ensures !Contains(REQUEST_FIN, REQUEST_FD) && !Contains(REQUEST_FIN, REQUEST_BUSY_POLL)
    ensures REQUEST_FIN != REQUEST_VERSION
  {
  }

  lemma DispatchCases(o: Outcomes, devices: map<string, int>, request: string, fd: int, n: nat)
    ensures var step := Respond(o, devices, request, fd, n);
      && (Contains(request, REQUEST_FD) ==> step == HandleFd(o, devices, request, n))
      && (!Contains(request, REQUEST_FD) && Contains(request, REQUEST_BUSY_POLL) ==>
            step == HandleBusyPoll(o, request, fd, n))
      && (!Contains(request, REQUEST_FD) && !Contains(request, REQUEST_BUSY_POLL) ==>
            && step.events == [step.events[0]] && step.events[0].Sent?
            && (step.events[0].text == VERSION <==> request == REQUEST_VERSION)
            && (step.events[0].text == RESPONSE_FIN_ACK <==> request == REQUEST_FIN)
            && step.events[0].text in {VERSION, RESPONSE_FIN_ACK, RESPONSE_BAD_REQUEST})
  {
    KeywordsApart();
  }

  /** A request of the busy poll form that no other handler takes. */
  ghost predicate ReachesPoll(request: string) {
    !Contains(request, REQUEST_FD) && exists a, b :: PollShape(request, a, b)
  }

  lemma PollFormParses(request: string)
    ensures ParsePoll(request).NotAPoll? <==> !exists a, b :: PollShape(request, a, b)
    ensures (exists a, b :: PollShape(request, a, b)) ==> Contains(request, REQUEST_BUSY_POLL)
    ensures ParsePoll(request).PollArgs? <==> exists timeout, budget :: AsksForPoll(request, timeout, budget)
  {
    forall a, b ensures PollShape(request, a, b) <==> Split(request, ",") == [REQUEST_BUSY_POLL, a, b] {
      PollShapeWords(request, a, b);
    }
    forall a, b | PollShape(request, a, b) ensures Contains(request, REQUEST_BUSY_POLL) {
      PrefixOccurs(request, REQUEST_BUSY_POLL);
    }
    forall timeout, budget
      ensures ParsePoll(request) == PollArgs(timeout, budget) <==> AsksForPoll(request, timeout, budget)
    {
      PollGrammar(request, timeout, budget);
    }
    var words := Split(request, ",");
    if |words| == 3 && words[0] == REQUEST_BUSY_POLL {
      assert words == [REQUEST_BUSY_POLL, words[1], words[2]];
      assert PollShape(request, words[1], words[2]);
    }
  }

  /** What follows the descriptor check says, and when it lets the server go on. */
  lemma ConfigureOutcome(o: Outcomes, request: string, fd: int, n: nat)
    requires forall m: nat :: o.writeOk(m)
    ensures var step := ConfigureBusyPoll(o, request, fd, n);
      && (Says(step, RESPONSE_BAD_REQUEST) <==> ParsePoll(request).NotAPoll?)
      && (step.go <==> ParsePoll(request).NotAPoll? || (ParsePoll(request).PollArgs? && o.pollOk(n)))
      && (step.events == [] <==> ParsePoll(request).BadNumber?)
  {
    var step := ConfigureBusyPoll(o, request, fd, n);
    if ParsePoll(request).NotAPoll? {
      SaysOne(o, n, RESPONSE_BAD_REQUEST, -1, RESPONSE_BAD_REQUEST);
    }
  }

  lemma SaysAfter(first: Event, step: Step, text: string)
    requires first.Sent? && first.text != text
    ensures Says(Step([first] + step.events, step.go), text) <==> Says(step, text)
  {
    var both := Step([first] + step.events, step.go);
    assert forall k | 0 <= k < |step.events| :: both.events[k + 1] == step.events[k];
    assert forall k | 1 <= k < |both.events| :: both.events[k] == step.events[k - 1];
  }

  /** While writes succeed: what the busy poll handler says, and when it lets the server go on. */
  lemma PollOutcome(o: Outcomes, request: string, fd: int, n: nat)
    requires forall m: nat :: o.writeOk(m)
    ensures var step := HandleBusyPoll(o, request, fd, n);
      && (Says(step, RESPONSE_BAD_REQUEST) <==> ParsePoll(request).NotAPoll?)
      && (step.go <==> ParsePoll(request).NotAPoll? || (ParsePoll(request).PollArgs? && o.pollOk(PollAt(fd, n))))
      && (step.events == [] <==> ParsePoll(request).BadNumber? && fd > 0)
  {
    ConfigureOutcome(o, request, fd, PollAt(fd, n));
    SaysAfter(Answer(o, n, RESPONSE_BUSY_POLL_NAK, -1), ConfigureBusyPoll(o, request, fd, n + 1), RESPONSE_BAD_REQUEST);
  }

  /**
   The rest of the dispatch, while writes succeed: "/nak" goes exactly to the requests of no form, the server stops
   exactly after "/fin", after unreadable busy poll numbers and after a failed configuration, and unreadable numbers
   with a descriptor are the only request without any answer.
   */
  lemma DispatchRemainder(o: Outcomes, devices: map<string, int>, request: string, fd: int, n: nat)
    requires forall m: nat :: o.writeOk(m)
    ensures var step := Respond(o, devices, request, fd, n);
      && (Says(step, RESPONSE_BAD_REQUEST) <==>
            && (!exists iface :: AsksForMap(request, iface)) && request != REQUEST_VERSION && request != REQUEST_FIN
            && !ReachesPoll(request))
      && (!step.go <==>
            || request == REQUEST_FIN
            || (ReachesPoll(request) && ((!exists timeout, budget :: AsksForPoll(request, timeout, budget))
                                         || !o.pollOk(PollAt(fd, n)))))
      && (step.events == [] <==>
            ReachesPoll(request) && fd > 0 && !exists timeout, budget :: AsksForPoll(request, timeout, budget))
  {
    KeywordsApart();
    ResponsesDiffer();
    PollFormParses(request);
    DispatchCases(o, devices, request, fd, n);
    forall iface | AsksForMap(request, iface) ensures Contains(request, REQUEST_FD) {
      MapRequestIsDispatched(request, iface);
    }
    if Contains(request, REQUEST_FD) {
      HandleFdGrammar(o, devices, request, n);
      HandleFdSays(o, devices, request, n);
      var text := HandleFd(o, devices, request, n).events[0].text;
      SaysOne(o, n, text, HandleFd(o, devices, request, n).events[0].fd, RESPONSE_BAD_REQUEST);
    } else if Contains(request, REQUEST_BUSY_POLL) {
      PollOutcome(o, request, fd, n);
    } else {
      assert Says(Respond(o, devices, request, fd, n), Respond(o, devices, request, fd, n).events[0].text);
    }
  }

  /** When the pod resources API fails, a connection request gets two answers. */
  lemma UnknownPodIsRefusedTwice(o: Outcomes, devices: map<string, int>, resource: string, request: string,
                                 podName: string, n: nat)
    requires AsksToConnect(request, podName)
    ensures Greet(o, devices, None, resource, request, n)
         == Step([Answer(o, n, RESPONSE_ERROR, -1), Answer(o, n + 1, RESPONSE_HOST_NAK, -1)], false)
  {
    ConnectGrammar(request, podName);
    PrefixOccurs(request, REQUEST_CONNECT);
  }

  /** A well-formed busy poll request with a descriptor is configured and then answered. */
  lemma PollIsAnswered(o: Outcomes, devices: map<string, int>, request: string, timeout: int, budget: int, fd: int,
                       n: nat)
    requires AsksForPoll(request, timeout, budget) && fd > 0
    ensures var ok := o.pollOk(n);
      Respond(o, devices, request, fd, n)
      == Step([Polled(fd, timeout, budget, ok),
               Answer(o, n + 1, if ok then RESPONSE_BUSY_POLL_ACK else RESPONSE_BUSY_POLL_NAK, -1)], ok)
  {
    PollGrammar(request, timeout, budget);
    PollRequestIsDispatched(request, timeout, budget);
  }

  /** Without a descriptor the same request is refused first and then handled all the same. */
  lemma BarePollIsAnswered(o: Outcomes, devices: map<string, int>, request: string, timeout: int, budget: int,
                           fd: int, n: nat)
    requires AsksForPoll(request, timeout, budget) && fd <= 0 && o.writeOk(n)
    ensures var ok := o.pollOk(n + 1);
      Respond(o, devices, request, fd, n)
      == Step([Answer(o, n, RESPONSE_BUSY_POLL_NAK, -1), Polled(fd, timeout, budget, ok),
               Answer(o, n + 2, if ok then RESPONSE_BUSY_POLL_ACK else RESPONSE_BUSY_POLL_NAK, -1)], ok)
  {
    var ok := o.pollOk(n + 1);
    PollGrammar(request, timeout, budget);
    PollRequestIsDispatched(request, timeout, budget);
    PrependToTwo(Answer(o, n, RESPONSE_BUSY_POLL_NAK, -1), Polled(fd, timeout, budget, ok),
                 Answer(o, n + 2, if ok then RESPONSE_BUSY_POLL_ACK else RESPONSE_BUSY_POLL_NAK, -1));
  }

  // ---------- Every answer, for every outcome of the writes ----------

  /** The first request: everything the server may say to it, and when it opens the connection. */
  lemma GreetExactly(o: Outcomes, devices: map<string, int>, pods: Option<map<string, Pod>>, resource: string,
                     request: string, n: nat)
    ensures var step := Greet(o, devices, pods, resource, request, n);
      && ((!exists a, b :: request == a + REQUEST_CONNECT + b) ==> step == Step([], false))
      && ((exists a, b :: request == a + REQUEST_CONNECT + b)
          && (!exists podName :: AsksToConnect(request, podName)) ==>
            step == Step([Sent(RESPONSE_HOST_NAK, -1, o.writeOk(n))], false))
      && forall podName | AsksToConnect(request, podName) ::
           step == if pods.None? then
                     Step([Sent(RESPONSE_ERROR, -1, o.writeOk(n)),
                           Sent(RESPONSE_HOST_NAK, -1, o.writeOk(n + 1))], false)
                   else if podName in pods.value && Accepts(pods.value[podName], resource, devices.Keys) then
                     Step([Sent(RESPONSE_HOST_OK, -1, o.writeOk(n))], true)
                   else Step([Sent(RESPONSE_HOST_NAK, -1, o.writeOk(n))], false)
  {
    ContainsExactly(request, REQUEST_CONNECT);
    forall podName
      ensures ConnectName(request) == Some(podName) <==> AsksToConnect(request, podName)
      ensures AsksToConnect(request, podName) ==> Contains(request, REQUEST_CONNECT)
    {
      ConnectGrammar(request, podName);
      if AsksToConnect(request, podName) {
        PrefixOccurs(request, REQUEST_CONNECT);
      }
    }
    if ConnectName(request).Some? {
      assert AsksToConnect(request, ConnectName(request).value);
    }
  }

  /** A descriptor request gets one answer, and the server goes on exactly if it could be written. */
  lemma MapAnsweredExactly(o: Outcomes, devices: map<string, int>, request: string, fd: int, n: nat)
    requires exists a, b :: request == a + REQUEST_FD + b
    ensures var step := Respond(o, devices, request, fd, n);
      && ((!exists iface :: AsksForMap(request, iface)) ==>
            step == Step([Sent(RESPONSE_BAD_REQUEST, -1, o.writeOk(n))], o.writeOk(n)))
      && forall iface | AsksForMap(request, iface) ::
           step == if iface in devices then Step([Sent(RESPONSE_FD_ACK, devices[iface], o.writeOk(n))], o.writeOk(n))
                   else Step([Sent(RESPONSE_FD_NAK, -1, o.writeOk(n))], o.writeOk(n))
  {
    ContainsExactly(request, REQUEST_FD);
    ResponsesDiffer();
    HandleFdGrammar(o, devices, request, n);
  }

  /** Requests with neither of the two keywords: the version, the end, and everything else. */
  lemma PlainAnsweredExactly(o: Outcomes, devices: map<string, int>, request: string, fd: int, n: nat)
    requires !exists a, b :: request == a + REQUEST_FD + b
    requires !exists a, b :: request == a + REQUEST_BUSY_POLL + b
    ensures Respond(o, devices, request, fd, n)
         == if request == REQUEST_VERSION then Step([Sent(VERSION, -1, o.writeOk(n))], o.writeOk(n))
            else if request == REQUEST_FIN then Step([Sent(RESPONSE_FIN_ACK, -1, o.writeOk(n))], false)
            else Step([Sent(RESPONSE_BAD_REQUEST, -1, o.writeOk(n))], o.writeOk(n))
  {
    ContainsExactly(request, REQUEST_FD);
    ContainsExactly(request, REQUEST_BUSY_POLL);
    KeywordsApart();
  }

  /** What a busy poll request is answered once it has a descriptor, or has been refused for having none. */
  ghost predicate PollConfigured(o: Outcomes, request: string, fd: int, n: nat, step: Step) {
    && ((!exists a, b :: PollShape(request, a, b)) ==>
          step == Step([Sent(RESPONSE_BAD_REQUEST, -1, o.writeOk(n))], o.writeOk(n)))
    && ((exists a, b :: PollShape(request, a, b)) && (!exists timeout, budget :: AsksForPoll(request, timeout, budget))
        ==> step == Step([], false))
    && forall timeout, budget | AsksForPoll(request, timeout, budget) ::
         step == if o.pollOk(n) then
                   Step([Polled(fd, timeout, budget, true), Sent(RESPONSE_BUSY_POLL_ACK, -1, o.writeOk(n + 1))], true)
                 else
                   Step([Polled(fd, timeout, budget, false), Sent(RESPONSE_BUSY_POLL_NAK, -1, o.writeOk(n + 1))], false)
  }

  /**
   Busy poll requests: an answer that could not be written does not stop the server after the configuration, and only
   the refusal of a missing descriptor does.
   */
  lemma PollAnsweredExactly(o: Outcomes, devices: map<string, int>, request: string, fd: int, n: nat)
    returns (rest: Step)
    requires !exists a, b :: request == a + REQUEST_FD + b
    requires exists a, b :: request == a + REQUEST_BUSY_POLL + b
    ensures PollConfigured(o, request, fd, if fd > 0 then n else n + 1, rest)
    ensures Respond(o, devices, request, fd, n)
         == if fd > 0 then rest
            else if o.writeOk(n) then Step([Sent(RESPONSE_BUSY_POLL_NAK, -1, true)] + rest.events, rest.go)
            else Step([Sent(RESPONSE_BUSY_POLL_NAK, -1, false)], false)
  {
    ContainsExactly(request, REQUEST_FD);
    ContainsExactly(request, REQUEST_BUSY_POLL);
    KeywordsApart();
    PollFormParses(request);
    rest := ConfigureBusyPoll(o, request, fd, if fd > 0 then n else n + 1);
    forall timeout, budget
      ensures ParsePoll(request) == PollArgs(timeout, budget) <==> AsksForPoll(request, timeout, budget)
    {
      PollGrammar(request, timeout, budget);
    }
  }

  // ---------- Descriptor safety over whole conversations ----------

  /** A write that carries a descriptor, or claims to. */
  predicate Carries(e: Event) { e.Sent? && (e.fd > 0 || e.text == RESPONSE_FD_ACK) }

  /** The reply is the acknowledgement of exactly this request, with exactly the descriptor of the named device. */
  ghost predicate Grants(devices: map<string, int>, request: Event, reply: Event) {
    && request.Received? && reply.Sent? && reply.text == RESPONSE_FD_ACK
    && exists iface :: AsksForMap(request.text, iface) && iface in devices && reply.fd == devices[iface]
  }

  ghost predicate SafeAt(devices: map<string, int>, events: seq<Event>, k: nat)
    requires k < |events|
  {
    && (Carries(events[k]) ==> k > 0 && Grants(devices, events[k - 1], events[k]))
    && (events[k].Sent? && events[k].text == RESPONSE_FIN_ACK ==>
          k > 0 && events[k - 1].Received? && events[k - 1].text == REQUEST_FIN)
    && (Closes(events[k]) ==> k == |events| - 1)
  }

  /** Every descriptor is granted, and nothing follows a final acknowledgement or a failed read. */
  ghost predicate Safe(devices: map<string, int>, events: seq<Event>) {
    forall k | 0 <= k < |events| :: SafeAt(devices, events, k)
  }

  predicate Closes(e: Event) {
    e.ReadFailed? || (e.Sent? && e.text == RESPONSE_FIN_ACK)
  }

  predicate Open(events: seq<Event>) {
    forall k | 0 <= k < |events| :: !Closes(events[k])
  }

  /** A round in which nothing is handed out and nothing ends is safe. */
  lemma QuietRound(devices: map<string, int>, first: Event, rest: seq<Event>)
    requires first.Received? && forall k | 0 <= k < |rest| :: !Carries(rest[k]) && !Closes(rest[k])
    ensures Safe(devices, [first] + rest) && Open([first] + rest)
    ensures forall e | e in [first] + rest :: !Carries(e)
  {
    var events := [first] + rest;
    forall k | 0 <= k < |events| ensures !Carries(events[k]) && !Closes(events[k]) {
      assert k > 0 ==> events[k] == rest[k - 1];
    }
  }

  /** A request and its answers. */
  lemma RespondSafe(o: Outcomes, devices: map<string, int>, request: string, fd: int, n: nat)
    ensures Safe(devices, [Received(request, fd)] + Respond(o, devices, request, fd, n).events)
    ensures var step := Respond(o, devices, request, fd, n);
            step.go ==> Open([Received(request, fd)] + step.events)
  {
    ResponsesDiffer();
    DispatchCases(o, devices, request, fd, n);
    var step := Respond(o, devices, request, fd, n);
    var events := [Received(request, fd)] + step.events;
    if Contains(request, REQUEST_FD) {
      HandleFdGrammar(o, devices, request, n);
      assert events[1] == step.events[0];
      assert SafeAt(devices, events, 1);
    } else if Contains(request, REQUEST_BUSY_POLL) {
      PollReplies(o, request, fd, n);
      forall k | 0 <= k < |step.events| ensures !Carries(step.events[k]) && !Closes(step.events[k]) {
        assert step.events[k] in step.events;
      }
      QuietRound(devices, Received(request, fd), step.events);
    } else {
      assert events == [Received(request, fd), step.events[0]];
    }
  }

  lemma SafeConcat(devices: map<string, int>, a: seq<Event>, b: seq<Event>)
    requires Safe(devices, a) && Safe(devices, b) && (b != [] ==> Open(a))
    requires b != [] ==> !b[0].Sent?
    ensures Safe(devices, a + b)
  {
    var events := a + b;
    forall k | 0 <= k < |events| ensures SafeAt(devices, events, k) {
      if k < |a| {
        assert SafeAt(devices, a, k);
      } else {
        assert SafeAt(devices, b, k - |a|);
      }
    }
  }

  ghost predicate SafeResponder(devices: map<string, int>, respond: Responder) {
    forall request: string, fd: int, n: nat ::
      var step := respond(request, fd, n);
      && Safe(devices, [Received(request, fd)] + step.events)
      && (step.go ==> Open([Received(request, fd)] + step.events))
  }

  lemma {:induction false} LoopSafe(devices: map<string, int>, respond: Responder, inbox: seq<Read>, n: nat)
    requires SafeResponder(devices, respond)
    ensures var events := Loop(respond, inbox, n); Safe(devices, events) && events != [] && !events[0].Sent?
  {
    if inbox != [] {
      var turn := Turn(respond, inbox[0], n);
      assert Safe(devices, turn.events) && (turn.go ==> Open(turn.events));
      if turn.go {
        LoopSafe(devices, respond, inbox[1..], n + |turn.events|);
        SafeConcat(devices, turn.events, Loop(respond, inbox[1..], n + |turn.events|));
      }
    }
  }

  /** The first message of the conversation came from a pod that the pod resources API vouches for. */
  ghost predicate Admitted(log: seq<Event>, devices: map<string, int>, pods: Option<map<string, Pod>>,
                           resource: string) {
    && |log| > 1 && log[0].Received? && log[1].Sent? && log[1].text == RESPONSE_HOST_OK
    && exists podName ::
         && AsksToConnect(log[0].text, podName)
         && pods.Some? && podName in pods.value && Accepts(pods.value[podName], resource, devices.Keys)
  }

  lemma GreetAdmits(o: Outcomes, devices: map<string, int>, pods: Option<map<string, Pod>>, resource: string,
                    request: string, n: nat)
    ensures var step := Greet(o, devices, pods, resource, request, n);
      && (step.go <==> exists podName ::
            && AsksToConnect(request, podName)
            && pods.Some? && podName in pods.value && Accepts(pods.value[podName], resource, devices.Keys))
      && (step.go ==> step.events == [Answer(o, n, RESPONSE_HOST_OK, -1)])
      && (forall k | 0 <= k < |step.events| :: !Carries(step.events[k]) && !Closes(step.events[k]))
  {
    ResponsesDiffer();
    forall podName
      ensures ConnectName(request) == Some(podName) <==> AsksToConnect(request, podName)
      ensures AsksToConnect(request, podName) ==> Contains(request, REQUEST_CONNECT)
    {
      ConnectGrammar(request, podName);
      if AsksToConnect(request, podName) {
        PrefixOccurs(request, REQUEST_CONNECT);
      }
    }
  }

  /**
   Descriptor safety, for every conversation: a write carries a descriptor only as the acknowledgement of the
   request read just before it, it is the descriptor of the device named there, the first request was from an
   admitted pod, and the conversation ends with the final acknowledgement or the first failed read.
   */
  lemma DescriptorSafety(o: Outcomes, devices: map<string, int>, pods: Option<map<string, Pod>>, resource: string,
                         inbox: seq<Read>)
    ensures var log := Serve(o, devices, pods, resource, inbox);
      && Safe(devices, log)
      && ((exists k | 0 <= k < |log| :: Carries(log[k])) ==> Admitted(log, devices, pods, resource))
  {
    if inbox != [] {
      var opening := Opening(o, devices, pods, resource, inbox[0]);
      OpeningSafe(o, devices, pods, resource, inbox[0]);
      if opening.go {
        forall request, fd, n: nat
          ensures var step := Answers(o, devices)(request, fd, n);
            && Safe(devices, [Received(request, fd)] + step.events)
            && (step.go ==> Open([Received(request, fd)] + step.events))
        {
          RespondSafe(o, devices, request, fd, n);
        }
        var rest := Loop(Answers(o, devices), inbox[1..], |opening.events|);
        LoopSafe(devices, Answers(o, devices), inbox[1..], |opening.events|);
        SafeConcat(devices, opening.events, rest);
        assert opening.events == (opening.events + rest)[..2];
      }
    }
  }

  lemma OpeningSafe(o: Outcomes, devices: map<string, int>, pods: Option<map<string, Pod>>, resource: string,
                    read: Read)
    ensures var opening := Opening(o, devices, pods, resource, read);
      && Safe(devices, opening.events) && (forall e | e in opening.events :: !Carries(e))
      && (opening.go ==> Open(opening.events) && |opening.events| == 2
                         && Admitted(opening.events, devices, pods, resource))
  {
    if read.Message? {
      GreetAdmits(o, devices, pods, resource, read.text, 1);
      QuietRound(devices, Received(read.text, read.fd), Greet(o, devices, pods, resource, read.text, 1).events);
    }
  }
}

// pkg/goclient/goclient.go: the client library as an object, and how its calls are the
// client's steps of Lockstep.

module GoClient {
  import opened Options
  import opened Sequences
  import opened Text
  import opened Constants
  import opened Handshake
  import opened Requests
  import opened Lockstep

  datatype ClientEvent = Dialed(ok: bool) | Wrote(text: string, fd: int, ok: bool) | Got(read: Read)

  /** Whether the dial, or the write, that becomes event number n succeeds. */
  datatype ClientOutcomes = ClientOutcomes(dialOk: nat -> bool, writeOk: nat -> bool)

  /** What a call does: its events, the messages it leaves unread, whether the client is connected, its result. */
  datatype Effect = Effect(events: seq<ClientEvent>, rest: seq<Read>, connected: bool, result: Result)

  function NextRead(inbox: seq<Read>): Read { if inbox == [] then Failure else inbox[0] }

  function RestOf(inbox: seq<Read>): seq<Read> { if inbox == [] then [] else inbox[1..] }

  /** initFunc: Done is the nil error, whatever the server answered. */
  function Introduce(o: ClientOutcomes, hostname: Option<string>, inbox: seq<Read>, n: nat): Effect {
    var dialed := Dialed(o.dialOk(n));
    if !dialed.ok || hostname.None? then Effect([dialed], inbox, false, Result.Failed)
    else
      var wrote := Wrote(ConnectRequest(hostname.value), -1, o.writeOk(n + 1));
      if !wrote.ok then Effect([dialed, wrote], inbox, false, Result.Failed)
      else
        var got := NextRead(inbox);
        var connected := got.Message? && got.text == RESPONSE_HOST_OK;
        Effect([dialed, wrote, Got(got)], RestOf(inbox), connected, if got.Failure? then Result.Failed else Done)
  }

  /** The request and its reply. */
  function Ask(o: ClientOutcomes, connected: bool, call: Call, inbox: seq<Read>, n: nat): Effect {
    var wrote := Wrote(RequestText(call), RequestFd(call), o.writeOk(n));
    if !wrote.ok then Effect([wrote], inbox, connected, Result.Failed)
    else
      var got := NextRead(inbox);
      Effect([wrote, Got(got)], RestOf(inbox), connected,
             if got.Failure? then Result.Failed else ResultOf(call, got))
  }

  /** A whole call: a client that is not connected greets first, and asks even if the answer was a refusal. */
  function Perform(o: ClientOutcomes, hostname: Option<string>, connected: bool, call: Call, inbox: seq<Read>,
                   n: nat): Effect {
    if connected then Ask(o, true, call, inbox, n)
    else
      var greeting := Introduce(o, hostname, inbox, n);
      if greeting.result == Result.Failed then greeting
      else
        var asked := Ask(o, greeting.connected, call, greeting.rest, n + |greeting.events|);
        asked.(events := greeting.events + asked.events)
  }

  /**
   A connected client's call, in any reachable state in which its reply has arrived: it takes the one message there
   is, and for a device name that fits the buffer the descriptor it returns is the server's for that device.
   */
  lemma AskReadsTheAnswer(setup: Setup, run: seq<State>, k: nat, o: ClientOutcomes, n: nat)
    requires Run(setup, run) && k < |run| && o.writeOk(n)
    requires run[k].connected && run[k].client.Awaiting? && run[k].down != []
    ensures var s := run[k];
            var call := s.client.call;
            var effect := Ask(o, true, call, s.down, n);
      && effect.events == [Wrote(RequestText(call), RequestFd(call), true), Got(s.down[0])]
      && effect.rest == [] && Good(setup, s.log, call, s.down[0])
      && (call.RequestXSKmapFD? && |call.device| <= 51 && ',' !in call.device && ' ' !in call.device ==>
            effect.result == if call.device !in setup.devices then Result.Failed
                             else Descriptor(if setup.devices[call.device] > 0 then setup.devices[call.device] else 0))
      && (call.GetServerVersion? ==> effect.result == Version(VERSION))
      && (call.RequestBusyPoll? ==>
            (effect.result == Done <==> s.down[0].Message? && s.down[0].text == RESPONSE_BUSY_POLL_ACK))
  {
    var s := run[k];
    var call := s.client.call;
    Invariant(setup, run, k);
    ResponsesDiffer();
    assert s.down[0].Message?;
    if call.RequestXSKmapFD? && |call.device| <= 51 && ',' !in call.device && ' ' !in call.device {
      MapResult(setup, s.log, call.device, s.down[0]);
    }
  }

  // ---------- The client's side of a run ----------

  /** A client's calls one after the other, the answers it got to them, and what it has not read. */
  datatype Session = Session(events: seq<ClientEvent>, rest: seq<Read>, connected: bool, answers: seq<Exchange>)

  /** A call is answered if the last thing that happened in it is a message read. */
  function AnswerTo(call: Call, effect: Effect): seq<Exchange> {
    if effect.events == [] then []
    else
      match effect.events[|effect.events| - 1]
      case Got(reply) => if reply.Message? then [Exchange(effect.connected, call, reply)] else []
      case _ => []
  }

  function Extend(s: Session, call: Call, effect: Effect): Session {
    Session(s.events + effect.events, effect.rest, effect.connected, s.answers + AnswerTo(call, effect))
  }

  function PerformAll(o: ClientOutcomes, hostname: Option<string>, calls: seq<Call>, inbox: seq<Read>): Session {
    if calls == [] then Session([], inbox, false, [])
    else
      var s := PerformAll(o, hostname, calls[..|calls| - 1], inbox);
      var call := calls[|calls| - 1];
      Extend(s, call, Perform(o, hostname, s.connected, call, s.rest, |s.events|))
  }

  /** The session before the request of the next call is written: after the greeting if there was no call before. */
  function Greeted(o: ClientOutcomes, hostname: Option<string>, calls: seq<Call>, inbox: seq<Read>): Session {
    if calls == [] then
      var greeting := Introduce(o, hostname, inbox, 0);
      Session(greeting.events, greeting.rest, greeting.connected, [])
    else PerformAll(o, hostname, calls, inbox)
  }

  /** The outcomes are those of the events recorded. */
  ghost predicate Agrees(o: ClientOutcomes, log: seq<ClientEvent>) {
    forall k | 0 <= k < |log| ::
      && (log[k].Dialed? ==> o.dialOk(k) == log[k].ok)
      && (log[k].Wrote? ==> o.writeOk(k) == log[k].ok)
  }

  function OutcomesOf(log: seq<ClientEvent>): ClientOutcomes {
    ClientOutcomes((k: nat) => k < |log| && log[k].Dialed? && log[k].ok,
                   (k: nat) => k < |log| && log[k].Wrote? && log[k].ok)
  }

  lemma OutcomesAgree(log: seq<ClientEvent>)
    ensures Agrees(OutcomesOf(log), log)
  {
  }

  /** What the client did in a step of the system. */
  function ClientPart(s: State, t: State): seq<ClientEvent>
    requires ((s.client.Greeting? && t.client.Ready?) || |s.answers| < |t.answers|) ==> s.down != []
  {
    match s.client
    case Greeting(_) => if t.client.Ready? then [Got(s.down[0])] else if t.client.Idle? then [Got(Failure)] else []
    case Ready(call) =>
      if t.client.Ready? then [] else [Wrote(RequestText(call), RequestFd(call), t.client.Awaiting?)]
    case Awaiting(_) =>
      if t.client.Awaiting? then [] else if |s.answers| < |t.answers| then [Got(s.down[0])] else [Got(Failure)]
    case Idle => []
  }

  lemma PartDefined(setup: Setup, s: State, t: State)
    requires Next(setup, s, t)
    ensures ((s.client.Greeting? && t.client.Ready?) || |s.answers| < |t.answers|) ==> s.down != []
  {
  }

  /** Everything the client has done up to state k. */
  ghost function ClientLog(setup: Setup, run: seq<State>, k: nat): seq<ClientEvent>
    requires Run(setup, run) && k < |run|
  {
    if k == 0 then [Dialed(true), Wrote(ConnectRequest(setup.hostname), -1, true)]
    else
      assert NextAt(setup, run, k);
      PartDefined(setup, run[k - 1], run[k]);
      ClientLog(setup, run, k - 1) + ClientPart(run[k - 1], run[k])
  }

  /** The calls begun up to state k. */
  function CallsOf(run: seq<State>, k: nat): (calls: seq<Call>)
    requires k < |run|
  {
    if k == 0 then (if run[0].client.Idle? then [] else [run[0].client.call])
    else
      CallsOf(run, k - 1)
      + if run[k - 1].client.Idle? && run[k].client.Ready? then [run[k].client.call] else []
  }

  function ReadOf(e: ClientEvent): seq<Read> { if e.Got? then [e.read] else [] }

  function ReadsOf(log: seq<ClientEvent>): seq<Read> {
    if log == [] then [] else ReadsOf(log[..|log| - 1]) + ReadOf(log[|log| - 1])
  }

  lemma ReadsAppend(log: seq<ClientEvent>, e: ClientEvent)
    ensures ReadsOf(log + [e]) == ReadsOf(log) + ReadOf(e)
  {
    assert (log + [e])[..|log|] == log;
  }

  lemma AgreesBefore(o: ClientOutcomes, log: seq<ClientEvent>, more: seq<ClientEvent>)
    requires Agrees(o, log + more)
    ensures Agrees(o, log)
  {
    assert forall k | 0 <= k < |log| :: (log + more)[k] == log[k];
  }

  /**
   What the client has done so far is what its calls do on the replies read, whatever it will read after them. A call
   under way has its part of the work done.
   */
  ghost predicate Performed(o: ClientOutcomes, hostname: string, calls: seq<Call>, s: State, log: seq<ClientEvent>,
                            inbox: seq<Read>, rest: seq<Read>)
  {
    var now := Session(log, rest, s.connected, s.answers);
    match s.client
    case Idle => PerformAll(o, Some(hostname), calls, inbox) == now
    case Greeting(call) =>
      && calls == [call] && !s.connected && s.answers == [] && inbox == rest
      && log == [Dialed(true), Wrote(ConnectRequest(hostname), -1, true)]
    case Ready(call) => MidCall(o, hostname, calls, call, now, inbox)
    case Awaiting(call) =>
      var wrote := Wrote(RequestText(call), RequestFd(call), true);
      && log != [] && log[|log| - 1] == wrote
      && MidCall(o, hostname, calls, call, now.(events := log[..|log| - 1]), inbox)
  }

  /** The last call is about to write its request: either the client is connected or this is its first call. */
  ghost predicate MidCall(o: ClientOutcomes, hostname: string, calls: seq<Call>, call: Call, now: Session,
                          inbox: seq<Read>)
  {
    && calls != [] && calls[|calls| - 1] == call
    && Greeted(o, Some(hostname), calls[..|calls| - 1], inbox) == now
    && (|calls| == 1 || now.connected)
    && (|calls| == 1 ==> Introduce(o, Some(hostname), inbox, 0).result == Done)
  }

  /** Finishing the call that is about to write its request. */
  lemma FinishCall(o: ClientOutcomes, hostname: string, calls: seq<Call>, call: Call, now: Session, inbox: seq<Read>)
    requires MidCall(o, hostname, calls, call, now, inbox)
    ensures var asked := Ask(o, now.connected, call, now.rest, |now.events|);
      PerformAll(o, Some(hostname), calls, inbox) == Extend(now, call, asked)
  {
    var asked := Ask(o, now.connected, call, now.rest, |now.events|);
    if |calls| == 1 {
      var greeting := Introduce(o, Some(hostname), inbox, 0);
      assert calls[..0] == [];
      assert PerformAll(o, Some(hostname), [], inbox) == Session([], inbox, false, []);
      var effect := Perform(o, Some(hostname), false, call, inbox, 0);
      assert effect == asked.(events := greeting.events + asked.events);
      assert [] + effect.events == greeting.events + asked.events;
      assert effect.events[|effect.events| - 1] == asked.events[|asked.events| - 1];
    }
  }

  lemma GreetingRead(o: ClientOutcomes, hostname: string, call: Call, reply: Read, rest: seq<Read>)
    requires Agrees(o, [Dialed(true), Wrote(ConnectRequest(hostname), -1, true)]) && reply.Message?
    ensures var now := Session([Dialed(true), Wrote(ConnectRequest(hostname), -1, true), Got(reply)], rest,
                               reply.text == RESPONSE_HOST_OK, []);
      MidCall(o, hostname, [call], call, now, [reply] + rest)
  {
    var log := [Dialed(true), Wrote(ConnectRequest(hostname), -1, true)];
    assert o.dialOk(0) by { assert log[0].Dialed?; }
    assert o.writeOk(1) by { assert log[1].Wrote?; }
    assert [call][..0] == [];
    assert ([reply] + rest)[1..] == rest;
  }

  lemma GreetingFails(o: ClientOutcomes, hostname: string, call: Call, rest: seq<Read>)
    requires Agrees(o, [Dialed(true), Wrote(ConnectRequest(hostname), -1, true)])
    ensures PerformAll(o, Some(hostname), [call], [Failure] + rest)
         == Session([Dialed(true), Wrote(ConnectRequest(hostname), -1, true), Got(Failure)], rest, false, [])
  {
    var log := [Dialed(true), Wrote(ConnectRequest(hostname), -1, true)];
    assert o.dialOk(0) by { assert log[0].Dialed?; }
    assert o.writeOk(1) by { assert log[1].Wrote?; }
    assert [call][..0] == [];
    assert ([Failure] + rest)[1..] == rest;
    assert PerformAll(o, Some(hostname), [], [Failure] + rest) == Session([], [Failure] + rest, false, []);
  }

  lemma ReplyRead(o: ClientOutcomes, hostname: string, calls: seq<Call>, call: Call, now: Session, inbox: seq<Read>,
                  reply: Read, rest: seq<Read>)
    requires MidCall(o, hostname, calls, call, now, inbox) && now.rest == [reply] + rest && o.writeOk(|now.events|)
    ensures PerformAll(o, Some(hostname), calls, inbox)
         == Session(now.events + [Wrote(RequestText(call), RequestFd(call), true), Got(reply)], rest, now.connected,
                    now.answers + if reply.Message? then [Exchange(now.connected, call, reply)] else [])
  {
    FinishCall(o, hostname, calls, call, now, inbox);
    assert ([reply] + rest)[1..] == rest;
  }

  lemma WriteFailed(o: ClientOutcomes, hostname: string, calls: seq<Call>, call: Call, now: Session, inbox: seq<Read>)
    requires MidCall(o, hostname, calls, call, now, inbox) && !o.writeOk(|now.events|)
    ensures PerformAll(o, Some(hostname), calls, inbox)
         == now.(events := now.events + [Wrote(RequestText(call), RequestFd(call), false)])
  {
    FinishCall(o, hostname, calls, call, now, inbox);
    assert now.answers + [] == now.answers;
  }

  lemma GreetingKeeps(o: ClientOutcomes, hostname: string, calls: seq<Call>, s: State, t: State, log: seq<ClientEvent>,
                      inbox: seq<Read>, rest: seq<Read>)
    requires ClientReadsGreeting(s, t) && Agrees(o, log)
    requires Performed(o, hostname, calls, s, log, inbox, [s.down[0]] + rest)
    ensures Performed(o, hostname, calls, t, log + [Got(s.down[0])], inbox, rest)
  {
    GreetingRead(o, hostname, s.client.call, s.down[0], rest);
    AppendThird(Dialed(true), Wrote(ConnectRequest(hostname), -1, true), Got(s.down[0]));
  }

  lemma AppendThird(a: ClientEvent, b: ClientEvent, c: ClientEvent)
    ensures [a, b] + [c] == [a, b, c]
  {
  }

  lemma WriteKeeps(o: ClientOutcomes, hostname: string, calls: seq<Call>, s: State, t: State, log: seq<ClientEvent>,
                   inbox: seq<Read>, rest: seq<Read>)
    requires ClientWrites(s, t) && Performed(o, hostname, calls, s, log, inbox, rest)
    ensures Performed(o, hostname, calls, t, log + [Wrote(RequestText(s.client.call), RequestFd(s.client.call), true)],
                      inbox, rest)
  {
    var wrote := Wrote(RequestText(s.client.call), RequestFd(s.client.call), true);
    assert (log + [wrote])[..|log + [wrote]| - 1] == log;
  }

  lemma LastAgrees(o: ClientOutcomes, log: seq<ClientEvent>)
    requires Agrees(o, log) && log != [] && log[|log| - 1].Wrote?
    ensures o.writeOk(|log| - 1) == log[|log| - 1].ok
  {
  }

  lemma WriteFailureKeeps(o: ClientOutcomes, hostname: string, calls: seq<Call>, s: State, t: State,
                          log: seq<ClientEvent>, inbox: seq<Read>, rest: seq<Read>)
    requires ClientWriteFails(s, t) && Performed(o, hostname, calls, s, log, inbox, rest)
    requires Agrees(o, log + [Wrote(RequestText(s.client.call), RequestFd(s.client.call), false)])
    ensures Performed(o, hostname, calls, t, log + [Wrote(RequestText(s.client.call), RequestFd(s.client.call), false)],
                      inbox, rest)
  {
    LastAgrees(o, log + [Wrote(RequestText(s.client.call), RequestFd(s.client.call), false)]);
    WriteFailed(o, hostname, calls, s.client.call, Session(log, rest, s.connected, s.answers), inbox);
  }

  /** A call ends with a read, successful or not. */
  lemma ReadKeeps(o: ClientOutcomes, hostname: string, calls: seq<Call>, s: State, t: State, log: seq<ClientEvent>,
                  reply: Read, inbox: seq<Read>, rest: seq<Read>)
    requires s.client.Awaiting? && t.client.Idle? && t.connected == s.connected && Agrees(o, log)
    requires t.answers == s.answers + if reply.Message? then [Exchange(s.connected, s.client.call, reply)] else []
    requires Performed(o, hostname, calls, s, log, inbox, [reply] + rest)
    ensures Performed(o, hostname, calls, t, log + [Got(reply)], inbox, rest)
  {
    var front, wrote := log[..|log| - 1], log[|log| - 1];
    LastAgrees(o, log);
    ReplyRead(o, hostname, calls, s.client.call, Session(front, [reply] + rest, s.connected, s.answers), inbox, reply,
              rest);
    assert log == front + [wrote];
    AppendTwo(front, wrote, Got(reply));
  }

  lemma GreetingFailureKeeps(o: ClientOutcomes, hostname: string, calls: seq<Call>, s: State, t: State,
                             log: seq<ClientEvent>, inbox: seq<Read>, rest: seq<Read>)
    requires s.client.Greeting? && ClientReadFails(s, t) && Agrees(o, log)
    requires Performed(o, hostname, calls, s, log, inbox, [Failure] + rest)
    ensures Performed(o, hostname, calls, t, log + [Got(Failure)], inbox, rest)
  {
    GreetingFails(o, hostname, s.client.call, rest);
    AppendThird(Dialed(true), Wrote(ConnectRequest(hostname), -1, true), Got(Failure));
  }

  lemma CallStarts(o: ClientOutcomes, hostname: string, calls: seq<Call>, s: State, t: State, log: seq<ClientEvent>,
                   inbox: seq<Read>, rest: seq<Read>)
    requires ClientCalls(s, t) && Performed(o, hostname, calls, s, log, inbox, rest)
    ensures Performed(o, hostname, calls + [t.client.call], t, log, inbox, rest)
  {
    var more := calls + [t.client.call];
    assert more[..|more| - 1] == calls;
  }

  /** One event of the client. */
  lemma EventKeeps(o: ClientOutcomes, setup: Setup, calls: seq<Call>, s: State, t: State, log: seq<ClientEvent>,
                   e: ClientEvent, inbox: seq<Read>, rest: seq<Read>)
    requires Next(setup, s, t) && AllMessages(s.down)
    requires ((s.client.Greeting? && t.client.Ready?) || |s.answers| < |t.answers|) ==> s.down != []
    requires ClientPart(s, t) == [e] && Agrees(o, log + [e])
    requires Performed(o, setup.hostname, calls, s, log, inbox, ReadOf(e) + rest)
    ensures Performed(o, setup.hostname, calls, t, log + [e], inbox, rest)
  {
    AgreesBefore(o, log, [e]);
    assert [] + rest == rest;
    if ClientReadsGreeting(s, t) {
      GreetingKeeps(o, setup.hostname, calls, s, t, log, inbox, rest);
    } else if ClientWrites(s, t) {
      WriteKeeps(o, setup.hostname, calls, s, t, log, inbox, rest);
    } else if ClientWriteFails(s, t) {
      WriteFailureKeeps(o, setup.hostname, calls, s, t, log, inbox, rest);
    } else if ClientReads(s, t) {
      ReadKeeps(o, setup.hostname, calls, s, t, log, s.down[0], inbox, rest);
    } else if s.client.Greeting? {
      GreetingFailureKeeps(o, setup.hostname, calls, s, t, log, inbox, rest);
    } else {
      assert s.answers + [] == s.answers;
      ReadKeeps(o, setup.hostname, calls, s, t, log, Failure, inbox, rest);
    }
  }

  lemma PartSize(setup: Setup, s: State, t: State)
    requires Next(setup, s, t)
    ensures ((s.client.Greeting? && t.client.Ready?) || |s.answers| < |t.answers|) ==> s.down != []
    ensures ClientPart(s, t) == [] <==> (ClientCalls(s, t)
              || (t.client == s.client && t.connected == s.connected && t.answers == s.answers))
    ensures |ClientPart(s, t)| <= 1
  {
  }

  lemma FirstReads(hostname: string, rest: seq<Read>)
    ensures ReadsOf([Dialed(true), Wrote(ConnectRequest(hostname), -1, true)]) + rest == rest
  {
    var a, b := Dialed(true), Wrote(ConnectRequest(hostname), -1, true);
    assert [a, b][..1] == [a] && [a][..0] == [];
    assert ReadsOf([a]) == [];
  }

  /** One step of the system, seen from the client. */
  ghost predicate Steps(setup: Setup, s: State, t: State, calls: seq<Call>, calls': seq<Call>, log: seq<ClientEvent>,
                        log': seq<ClientEvent>)
  {
    && Next(setup, s, t) && AllMessages(s.down)
    && (((s.client.Greeting? && t.client.Ready?) || |s.answers| < |t.answers|) ==> s.down != [])
    && |ClientPart(s, t)| <= 1 && log' == log + ClientPart(s, t)
    && calls' == calls + if s.client.Idle? && t.client.Ready? then [t.client.call] else []
  }

  lemma StepSeen(setup: Setup, run: seq<State>, k: nat)
    requires Run(setup, run) && 0 < k < |run|
    ensures Steps(setup, run[k - 1], run[k], CallsOf(run, k - 1), CallsOf(run, k), ClientLog(setup, run, k - 1),
                  ClientLog(setup, run, k))
  {
    assert NextAt(setup, run, k);
    PartSize(setup, run[k - 1], run[k]);
    Invariant(setup, run, k - 1);
  }

  /** What the client reads in a step, given what it does. */
  function ReadIn(part: seq<ClientEvent>): seq<Read> { if part == [] then [] else ReadOf(part[0]) }

  lemma ReadsConcat(log: seq<ClientEvent>, part: seq<ClientEvent>)
    requires |part| <= 1
    ensures ReadsOf(log + part) == ReadsOf(log) + ReadIn(part)
  {
    if part == [] {
      assert log + part == log;
    } else {
      assert part == [part[0]];
      ReadsAppend(log, part[0]);
    }
  }

  lemma QuietKeeps(o: ClientOutcomes, setup: Setup, s: State, t: State, calls: seq<Call>, calls': seq<Call>,
                   log: seq<ClientEvent>, inbox: seq<Read>, rest: seq<Read>)
    requires Next(setup, s, t)
    requires ClientCalls(s, t) || (t.client == s.client && t.connected == s.connected && t.answers == s.answers)
    requires calls' == calls + if s.client.Idle? && t.client.Ready? then [t.client.call] else []
    requires Performed(o, setup.hostname, calls, s, log, inbox, rest)
    ensures Performed(o, setup.hostname, calls', t, log, inbox, rest)
  {
    if t.client != s.client {
      CallStarts(o, setup.hostname, calls, s, t, log, inbox, rest);
    } else {
      assert calls' == calls;
    }
  }

  lemma StepKeeps(o: ClientOutcomes, setup: Setup, s: State, t: State, calls: seq<Call>, calls': seq<Call>,
                  log: seq<ClientEvent>, log': seq<ClientEvent>, inbox: seq<Read>, rest: seq<Read>)
    requires Steps(setup, s, t, calls, calls', log, log') && Agrees(o, log')
    requires Performed(o, setup.hostname, calls, s, log, inbox, ReadIn(ClientPart(s, t)) + rest)
    ensures Performed(o, setup.hostname, calls', t, log', inbox, rest)
  {
    var part := ClientPart(s, t);
    PartSize(setup, s, t);
    if part == [] {
      assert log' == log && [] + rest == rest;
      QuietKeeps(o, setup, s, t, calls, calls', log, inbox, rest);
    } else {
      assert part == [part[0]] && calls' == calls;
      EventKeeps(o, setup, calls, s, t, log, part[0], inbox, rest);
    }
  }

  lemma {:induction false} ClientPerformed(setup: Setup, run: seq<State>, k: nat, o: ClientOutcomes, rest: seq<Read>)
    requires Run(setup, run) && k < |run| && Agrees(o, ClientLog(setup, run, k))
    ensures var log := ClientLog(setup, run, k);
      Performed(o, setup.hostname, CallsOf(run, k), run[k], log, ReadsOf(log) + rest, rest)
    decreases k
  {
    if k == 0 {
      FirstReads(setup.hostname, rest);
    } else {
      var s, t, before, log := run[k - 1], run[k], ClientLog(setup, run, k - 1), ClientLog(setup, run, k);
      StepSeen(setup, run, k);
      AgreesBefore(o, before, ClientPart(s, t));
      ClientPerformed(setup, run, k - 1, o, ReadIn(ClientPart(s, t)) + rest);
      ReadsConcat(before, ClientPart(s, t));
      ConcatAssoc(ReadsOf(before), ReadIn(ClientPart(s, t)), rest);
      StepKeeps(o, setup, s, t, CallsOf(run, k - 1), CallsOf(run, k), before, log, ReadsOf(log) + rest, rest);
    }
  }

  /**
   The client of the two-queue system does exactly what the client object does: between calls, what it has done, the
   answers it got and whether it is connected are what its calls make of the replies it has read.
   */
  lemma ClientRefines(setup: Setup, run: seq<State>, k: nat)
    requires Run(setup, run) && k < |run| && run[k].client.Idle?
    ensures var log := ClientLog(setup, run, k);
      PerformAll(OutcomesOf(log), Some(setup.hostname), CallsOf(run, k), ReadsOf(log))
      == Session(log, [], run[k].connected, run[k].answers)
  {
    var log := ClientLog(setup, run, k);
    OutcomesAgree(log);
    ClientPerformed(setup, run, k, OutcomesOf(log), []);
    assert ReadsOf(log) + [] == ReadsOf(log);
  }

  // ---------- Both queues ----------

  /** The messages among the reads; a failed read takes nothing out of a queue. */
  function Messages(list: seq<Read>): seq<Read> {
    if list == [] then []
    else Messages(list[..|list| - 1]) + if list[|list| - 1].Message? then [list[|list| - 1]] else []
  }

  /** What one event of the client puts into the queue to the server. */
  function PutBy(e: ClientEvent): (packets: seq<Read>)
    ensures AllMessages(packets)
  {
    if e.Wrote? && e.ok then [Packet(e.text, e.fd)] else []
  }

  function Put(log: seq<ClientEvent>): (packets: seq<Read>)
    ensures AllMessages(packets)
  {
    if log == [] then [] else Put(log[..|log| - 1]) + PutBy(log[|log| - 1])
  }

  lemma MessagesAppend(list: seq<Read>, read: Read)
    ensures Messages(list + [read]) == Messages(list) + if read.Message? then [read] else []
  {
    assert (list + [read])[..|list|] == list;
  }

  lemma PutAppend(log: seq<ClientEvent>, e: ClientEvent)
    ensures Put(log + [e]) == Put(log) + PutBy(e)
  {
    assert (log + [e])[..|log|] == log;
  }

  lemma {:induction false} PacketsAppend(a: seq<Event>, b: seq<Event>)
    ensures Packets(a + b) == Packets(a) + Packets(b)
  {
    if a == [] {
      assert a + b == b;
    } else {
      assert (a + b)[1..] == a[1..] + b;
      PacketsAppend(a[1..], b);
    }
  }

  /** Nothing in either queue is lost, repeated or reordered. */
  ghost predicate InOrder(s: State, put: seq<Read>, got: seq<Read>) {
    && AllMessages(put)
    && Messages(s.taken) + s.up == put
    && got + s.down == Packets(s.log)
  }

  /** A round of the server: it takes one message, or a failed read, and puts its answers behind the others. */
  lemma RoundInOrder(s: State, u: State, t: State, read: Read, turn: Step, put: seq<Read>, got: seq<Read>)
    requires InOrder(s, put, got) && t == Advance(u, read, turn)
    requires if read.Message? then s.up != [] && read == s.up[0] && u == s.(up := s.up[1..]) else u == s
    ensures InOrder(t, put, got)
  {
    MessagesAppend(s.taken, read);
    PacketsAppend(s.log, turn.events);
    ConcatAssoc(got, s.down, Packets(turn.events));
    if read.Message? {
      assert s.up == [read] + s.up[1..];
      ConcatAssoc(Messages(s.taken), [read], s.up[1..]);
    } else {
      assert Messages(s.taken) + [] == Messages(s.taken);
    }
  }

  lemma ClientInOrder(s: State, t: State, put: seq<Read>, got: seq<Read>, packets: seq<Read>, read: seq<Read>)
    requires InOrder(s, put, got) && AllMessages(packets) && t.taken == s.taken && t.log == s.log
    requires t.up == s.up + packets && s.down == read + t.down
    ensures InOrder(t, put + packets, got + read)
  {
    ConcatAssoc(Messages(s.taken), s.up, packets);
    ConcatAssoc(got, read, t.down);
  }

  lemma HeadAndTail(queue: seq<Read>)
    ensures queue + [] == queue && [] + queue == queue
    ensures queue != [] ==> queue == [queue[0]] + queue[1..]
  {
  }

  /** What a step of the client does to the queues. */
  lemma PartInQueues(setup: Setup, s: State, t: State)
    requires Next(setup, s, t) && AllMessages(s.down)
    requires ((s.client.Greeting? && t.client.Ready?) || |s.answers| < |t.answers|) ==> s.down != []
    requires !ServerReads(setup, s, t) && !ServerReadFails(setup, s, t)
    ensures t.taken == s.taken && t.log == s.log
    ensures var part := ClientPart(s, t);
      if part == [] then t.up == s.up && t.down == s.down
      else
        && t.up == s.up + PutBy(part[0])
        && s.down == (if part[0].Got? && part[0].read.Message? then [part[0].read] else []) + t.down
  {
    HeadAndTail(s.up);
    HeadAndTail(s.down);
    if ClientReadsGreeting(s, t) {
    } else if ClientWrites(s, t) {
    } else if ClientWriteFails(s, t) {
    } else if ClientReads(s, t) {
    }
  }

  lemma ServerInOrder(setup: Setup, s: State, t: State, put: seq<Read>, got: seq<Read>)
    requires InOrder(s, put, got) && (ServerReads(setup, s, t) || ServerReadFails(setup, s, t))
    ensures InOrder(t, put, got)
  {
    if ServerReads(setup, s, t) {
      assert s.up[0] == put[|Messages(s.taken)|];
      RoundInOrder(s, s.(up := s.up[1..]), t, s.up[0], ServerTurn(setup, s, s.up[0]), put, got);
    } else {
      RoundInOrder(s, s, t, Failure, ServerTurn(setup, s, Failure), put, got);
    }
  }

  /** The queues and the client's log. */
  ghost predicate QueuesAgree(s: State, log: seq<ClientEvent>) { InOrder(s, Put(log), Messages(ReadsOf(log))) }

  lemma QueuesKept(setup: Setup, s: State, t: State, calls: seq<Call>, calls': seq<Call>, log: seq<ClientEvent>,
                   log': seq<ClientEvent>)
    requires Steps(setup, s, t, calls, calls', log, log') && QueuesAgree(s, log)
    ensures QueuesAgree(t, log')
  {
    var part := ClientPart(s, t);
    PartSize(setup, s, t);
    if ServerReads(setup, s, t) || ServerReadFails(setup, s, t) {
      assert log' == log;
      ServerInOrder(setup, s, t, Put(log), Messages(ReadsOf(log)));
    } else {
      PartInQueues(setup, s, t);
      if part == [] {
        assert log' == log;
      } else {
        assert part == [part[0]];
        EventInOrder(s, t, log, part[0]);
      }
    }
  }

  lemma EventInOrder(s: State, t: State, log: seq<ClientEvent>, e: ClientEvent)
    requires QueuesAgree(s, log) && t.taken == s.taken && t.log == s.log
    requires t.up == s.up + PutBy(e) && s.down == (if e.Got? && e.read.Message? then [e.read] else []) + t.down
    ensures QueuesAgree(t, log + [e])
  {
    PutAppend(log, e);
    ReadsAppend(log, e);
    ClientInOrder(s, t, Put(log), Messages(ReadsOf(log)), PutBy(e),
                  if e.Got? && e.read.Message? then [e.read] else []);
    if e.Got? {
      MessagesAppend(ReadsOf(log), e.read);
    } else {
      assert ReadsOf(log) + [] == ReadsOf(log) && Messages(ReadsOf(log)) + [] == Messages(ReadsOf(log));
    }
  }

  lemma FirstInOrder(setup: Setup, run: seq<State>)
    requires Run(setup, run)
    ensures QueuesAgree(run[0], ClientLog(setup, run, 0))
  {
    var a, b := Dialed(true), Wrote(ConnectRequest(setup.hostname), -1, true);
    FirstReads(setup.hostname, []);
    assert [a, b][..1] == [a] && [a][..0] == [];
    assert Put([a]) == [];
    HeadAndTail([Hello(setup)]);
    HeadAndTail(ReadsOf([a, b]));
  }

  /**
   The queues connect the two logs: in every reachable state the server has read what the client has written, apart from
   what is still in the queue, and the client what the server has sent, in order and nothing twice.
   */
  lemma ChannelsInOrder(setup: Setup, run: seq<State>, k: nat)
    requires Run(setup, run) && k < |run|
    ensures var log := ClientLog(setup, run, k);
      && Messages(run[k].taken) + run[k].up == Put(log)
      && Messages(ReadsOf(log)) + run[k].down == Packets(run[k].log)
  {
    var log := AllInOrder(setup, run, k);
  }

  lemma {:induction false} AllInOrder(setup: Setup, run: seq<State>, k: nat) returns (log: seq<ClientEvent>)
    requires Run(setup, run) && k < |run|
    ensures log == ClientLog(setup, run, k) && QueuesAgree(run[k], log)
    decreases k
  {
    if k == 0 {
      FirstInOrder(setup, run);
    } else {
      var before := AllInOrder(setup, run, k - 1);
      StepInOrder(setup, run, k);
    }
    log := ClientLog(setup, run, k);
  }

  lemma StepInOrder(setup: Setup, run: seq<State>, k: nat)
    requires Run(setup, run) && 0 < k < |run| && QueuesAgree(run[k - 1], ClientLog(setup, run, k - 1))
    ensures QueuesAgree(run[k], ClientLog(setup, run, k))
  {
    var before, log := ClientLog(setup, run, k - 1), ClientLog(setup, run, k);
    StepSeen(setup, run, k);
    QueuesKept(setup, run[k - 1], run[k], CallsOf(run, k - 1), CallsOf(run, k), before, log);
  }

  /** The client's end of the connection. */
  class Wire {
    const outcomes: ClientOutcomes
    const hostname: Option<string>
    var inbox: seq<Read>
    var log: seq<ClientEvent>

    constructor (outcomes: ClientOutcomes, hostname: Option<string>, inbox: seq<Read>)
      ensures this.outcomes == outcomes && this.hostname == hostname && this.inbox == inbox && log == []
    {
      this.outcomes := outcomes;
      this.hostname := hostname;
      this.inbox := inbox;
      log := [];
    }

    method Dial() returns (ok: bool)
      modifies this`log
      ensures ok == outcomes.dialOk(|old(log)|) && log == old(log) + [Dialed(ok)]
    {
      ok := outcomes.dialOk(|log|);
      log := log + [Dialed(ok)];
    }

    method Write(text: string, fd: int) returns (ok: bool)
      modifies this`log
      ensures ok == outcomes.writeOk(|old(log)|) && log == old(log) + [Wrote(text, fd, ok)]
    {
      ok := outcomes.writeOk(|log|);
      log := log + [Wrote(text, fd, ok)];
    }

    method Read() returns (read: Read)
      modifies this
      ensures read == NextRead(old(inbox)) && inbox == RestOf(old(inbox)) && log == old(log) + [Got(read)]
    {
      read := Failure;
      if inbox != [] {
        read := inbox[0];
        inbox := inbox[1..];
      }
      log := log + [Got(read)];
    }
  }

  class Client {
    const wire: Wire
    var connected: bool

    constructor (wire: Wire)
      ensures this.wire == wire && !connected
    {
      this.wire := wire;
      connected := false;
    }

    /** The effect of a method is exactly the specified one. */
    twostate predicate Did(effect: Effect)
      reads this, wire
    {
      && wire.log == old(wire.log) + effect.events
      && wire.inbox == effect.rest && connected == effect.connected
    }

    /** The last thing that happened is not a message read. */
    predicate NoReply()
      reads this, wire
    {
      wire.log != [] && (!wire.log[|wire.log| - 1].Got? || wire.log[|wire.log| - 1].read.Failure?)
    }

    /** The last thing that happened is a message read with this text. */
    predicate LastRead(text: string)
      reads this, wire
    {
      && wire.log != [] && wire.log[|wire.log| - 1].Got?
      && wire.log[|wire.log| - 1].read.Message? && wire.log[|wire.log| - 1].read.text == text
    }

    /** Since `before` the request was written and a message was read last; this is its text and descriptor. */
    predicate ReplyRead(before: seq<ClientEvent>, request: ClientEvent)
      reads this, wire
    {
      && |wire.log| >= |before| + 2 && wire.log[|wire.log| - 2] == request
      && wire.log[|wire.log| - 1].Got? && wire.log[|wire.log| - 1].read.Message?
    }

    method InitFunc() returns (result: Result)
      requires !connected
      modifies this, wire
      ensures var effect := Introduce(wire.outcomes, wire.hostname, old(wire.inbox), |old(wire.log)|);
              Did(effect) && result == effect.result
      ensures result == Result.Failed ==> NoReply()
      ensures result != Result.Failed ==> |wire.log| > |old(wire.log)|
      ensures connected <==> LastRead(RESPONSE_HOST_OK)
    {
      var dialed := wire.Dial();
      if !dialed {
        return Result.Failed;
      }
      if wire.hostname.None? {
        return Result.Failed;
      }
      var wrote := wire.Write(ConnectRequest(wire.hostname.value), -1);
      AppendTwo(old(wire.log), Dialed(true), Wrote(ConnectRequest(wire.hostname.value), -1, wrote));
      if !wrote {
        return Result.Failed;
      }
      var response := wire.Read();
      ConcatAssoc(old(wire.log), [Dialed(true), Wrote(ConnectRequest(wire.hostname.value), -1, true)], [Got(response)]);
      if response.Failure? {
        return Result.Failed;
      }
      if response.text == RESPONSE_HOST_OK {
        connected := true;
      }
      return Done;
    }

    /** The two lines every call shares: the write and the read. */
    method WriteAndRead(ghost call: Call, text: string, fd: int) returns (response: Read)
      requires text == RequestText(call) && fd == RequestFd(call)
      modifies wire
      ensures var effect := Ask(wire.outcomes, connected, call, old(wire.inbox), |old(wire.log)|);
              && Did(effect)
              && effect.result == if response.Failure? then Result.Failed else ResultOf(call, response)
      ensures response.Failure? ==> NoReply()
      ensures response.Message? ==>
                ReplyRead(old(wire.log), Wrote(text, fd, true)) && wire.log[|wire.log| - 1].read == response
    {
      var wrote := wire.Write(text, fd);
      if !wrote {
        return Failure;
      }
      response := wire.Read();
      AppendTwo(old(wire.log), Wrote(text, fd, true), Got(response));
    }

    method GetServerVersion() returns (result: Result)
      modifies this, wire
      ensures var effect := Perform(wire.outcomes, wire.hostname, old(connected), Call.GetServerVersion,
                                    old(wire.inbox), |old(wire.log)|);
              Did(effect) && result == effect.result
      ensures ReplyRead(old(wire.log), Wrote(REQUEST_VERSION, -1, true)) ==>
                result == Version(wire.log[|wire.log| - 1].read.text)
      ensures !ReplyRead(old(wire.log), Wrote(REQUEST_VERSION, -1, true)) ==> result == Result.Failed
    {
      if !connected {
        var greeted := InitFunc();
        if greeted == Result.Failed {
          return Result.Failed;
        }
      }
      var response := WriteAndRead(Call.GetServerVersion, REQUEST_VERSION, -1);
      if response.Failure? {
        return Result.Failed;
      }
      return Version(response.text);
    }

    method RequestXSKmapFD(device: string) returns (result: Result)
      modifies this, wire
      ensures var effect := Perform(wire.outcomes, wire.hostname, old(connected), Call.RequestXSKmapFD(device),
                                    old(wire.inbox), |old(wire.log)|);
              Did(effect) && result == effect.result
      ensures ReplyRead(old(wire.log), Wrote(REQUEST_FD + ", " + device, -1, true)) ==>
                result == if wire.log[|wire.log| - 1].read.text == RESPONSE_FD_ACK
                          then Descriptor(wire.log[|wire.log| - 1].read.fd) else Result.Failed
      ensures !ReplyRead(old(wire.log), Wrote(REQUEST_FD + ", " + device, -1, true)) ==> result == Result.Failed
    {
      if !connected {
        var greeted := InitFunc();
        if greeted == Result.Failed {
          return Result.Failed;
        }
      }
      var response := WriteAndRead(Call.RequestXSKmapFD(device), REQUEST_FD + ", " + device, -1);
      if response.Failure? {
        return Result.Failed;
      }
      if response.text == RESPONSE_FD_ACK {
        return Descriptor(response.fd);
      }
      return Result.Failed;
    }

    method RequestBusyPoll(busyTimeout: int, busyBudget: int, fd: int) returns (result: Result)
      modifies this, wire
      ensures var effect := Perform(wire.outcomes, wire.hostname, old(connected),
                                    Call.RequestBusyPoll(busyTimeout, busyBudget, fd), old(wire.inbox),
                                    |old(wire.log)|);
              Did(effect) && result == effect.result
      ensures ReplyRead(old(wire.log), Wrote(REQUEST_BUSY_POLL + ", " + Itoa(busyTimeout) + ", " + Itoa(busyBudget), fd,
                                             true)) ==>
                result == if wire.log[|wire.log| - 1].read.text == RESPONSE_BUSY_POLL_NAK then Result.Failed else Done
      ensures !ReplyRead(old(wire.log), Wrote(REQUEST_BUSY_POLL + ", " + Itoa(busyTimeout) + ", " + Itoa(busyBudget),
                                              fd, true)) ==>
                result == Result.Failed
    {
      if !connected {
        var greeted := InitFunc();
        if greeted == Result.Failed {
          return Result.Failed;
        }
      }
      var pollString := REQUEST_BUSY_POLL + ", " + Itoa(busyTimeout) + ", " + Itoa(busyBudget);
      var response := WriteAndRead(Call.RequestBusyPoll(busyTimeout, busyBudget, fd), pollString, fd);
      if response.Failure? {
        return Result.Failed;
      }
      if response.text == RESPONSE_BUSY_POLL_NAK {
        return Result.Failed;
      }
      return Done;
    }
  }
}
